/**
 * Legal-move generation: `makeSingleMoves` and `makeDoubleMoves`.
 *
 * The functions are the specification; `MakeSingleMoves` and `MakeDoubleMoves`
 * follow the source's loops and are proved to compute them. Lemmas relate the
 * transport-by-transport generation to a reference description of which tickets
 * an edge offers.
 */
module MoveGeneration {
  import opened ScotlandYard

  /** A non-empty set has a member (lets a loop pick the next element of a set it iterates over). */
  lemma SomeMember<T>(s: set<T>) returns (x: T)
    requires s != {}
    ensures x in s
  {
    x :| x in s;
  }

  /** Some detective of the list stands on `location`. */
  predicate Occupied(detectives: seq<Player>, location: int)
  {
    exists i :: 0 <= i < |detectives| && detectives[i].location == location
  }

  /**
   * The single moves offered along one edge, one transport at a time. `hasTicket`
   * is the flag carried over from the transports already seen on the edge: it is
   * set once a transport's required ticket is held and is never cleared again.
   */
  function EdgeMoves(player: Player, source: int, destination: int, transports: seq<Transport>,
                     hasTicket: bool): (r: set<SingleMove>)
    ensures forall m :: m in r ==>
              m.mover == player.piece && m.source == source && m.destination == destination && m.ticket != Double
    decreases |transports|
  {
    if transports == [] then {}
    else
      var t := transports[0];
      var held := hasTicket || player.Has(RequiredTicket(t));
      (if held then {SingleMove(player.piece, source, RequiredTicket(t), destination)} else {})
      + (if player.HasAtLeast(Secret, 1) then {SingleMove(player.piece, source, Secret, destination)} else {})
      + EdgeMoves(player, source, destination, transports[1..], held)
  }

  /** The player holds the required ticket of one of the transports at positions `0..k`. */
  predicate HeldUpTo(player: Player, transports: seq<Transport>, k: int)
  {
    exists j :: 0 <= j <= k && j < |transports| && player.Has(RequiredTicket(transports[j]))
  }

  /**
   * Which tickets an edge offers, stated without the loop: the required ticket of
   * the transport at position `k` whenever the ticket of a transport at a position
   * up to `k` is held, and SECRET on any edge with a transport when SECRET is held.
   */
  predicate Offered(player: Player, transports: seq<Transport>, ticket: Ticket)
  {
    || (exists k :: 0 <= k < |transports| && RequiredTicket(transports[k]) == ticket
                    && HeldUpTo(player, transports, k))
    || (ticket == Secret && player.HasAtLeast(Secret, 1) && |transports| > 0)
  }

  /** Dropping the first transport shifts the positions of `HeldUpTo` by one. */
  lemma HeldShift(player: Player, transports: seq<Transport>, k: int)
    requires 0 <= k && k + 1 < |transports|
    ensures HeldUpTo(player, transports, k + 1)
            <==> player.Has(RequiredTicket(transports[0])) || HeldUpTo(player, transports[1..], k)
  {
    var rest := transports[1..];
    if HeldUpTo(player, transports, k + 1) && !player.Has(RequiredTicket(transports[0])) {
      var j :| 0 <= j <= k + 1 && j < |transports| && player.Has(RequiredTicket(transports[j]));
      assert rest[j - 1] == transports[j];
    }
    if HeldUpTo(player, rest, k) {
      var j :| 0 <= j <= k && j < |rest| && player.Has(RequiredTicket(rest[j]));
      assert transports[j + 1] == rest[j];
    }
  }

  /** What the transport loop of one edge emits, for any value of the carried flag. */
  lemma {:induction false} EdgeMovesIff(player: Player, source: int, destination: int,
                                        transports: seq<Transport>, hasTicket: bool, m: SingleMove)
    ensures m in EdgeMoves(player, source, destination, transports, hasTicket) <==>
              && m.mover == player.piece && m.source == source && m.destination == destination
              && (|| (exists k :: 0 <= k < |transports| && RequiredTicket(transports[k]) == m.ticket
                                  && (hasTicket || HeldUpTo(player, transports, k)))
                  || (m.ticket == Secret && player.HasAtLeast(Secret, 1) && |transports| > 0))
    decreases |transports|
  {
    if transports != [] {
      var t := transports[0];
      var rest := transports[1..];
      var held := hasTicket || player.Has(RequiredTicket(t));
      EdgeMovesIff(player, source, destination, rest, held, m);
      assert held <==> hasTicket || HeldUpTo(player, transports, 0);
      var inRest := exists k :: 0 <= k < |rest| && RequiredTicket(rest[k]) == m.ticket
                                && (held || HeldUpTo(player, rest, k));
      var inAll := exists k :: 0 <= k < |transports| && RequiredTicket(transports[k]) == m.ticket
                               && (hasTicket || HeldUpTo(player, transports, k));
      if inRest {
        var k :| 0 <= k < |rest| && RequiredTicket(rest[k]) == m.ticket && (held || HeldUpTo(player, rest, k));
        HeldShift(player, transports, k);
        assert transports[k + 1] == rest[k];
        assert inAll;
      }
      if inAll {
        var k :| 0 <= k < |transports| && RequiredTicket(transports[k]) == m.ticket
                 && (hasTicket || HeldUpTo(player, transports, k));
        if k > 0 {
          HeldShift(player, transports, k - 1);
          assert rest[k - 1] == transports[k];
          assert inRest;
        }
      }
    }
  }

  /** The single moves towards each destination of `destinations` not occupied by a detective. */
  function MovesToward(setup: GameSetup, detectives: seq<Player>, player: Player, source: int,
                       destinations: set<int>): set<SingleMove>
  {
    set d, m | d in destinations && !Occupied(detectives, d)
                 && m in EdgeMoves(player, source, d, Transports(setup.graph, source, d), false) :: m
  }

  /** All single moves of `player` from `source` (`makeSingleMoves`). */
  function SingleMoves(setup: GameSetup, detectives: seq<Player>, player: Player, source: int): (r: set<SingleMove>)
    ensures forall m :: m in r ==>
              && m.mover == player.piece && m.source == source && m.ticket != Double
              && m.destination in Adjacent(setup.graph, source) && !Occupied(detectives, m.destination)
  {
    MovesToward(setup, detectives, player, source, Adjacent(setup.graph, source))
  }

  /**
   * A source that is not a node with edges has no neighbours, so no single move
   * leaves it (where the graph library would reject the node instead).
   */
  lemma OffGraphNoMoves(setup: GameSetup, detectives: seq<Player>, player: Player, source: int)
    requires source !in setup.graph.edges
    ensures SingleMoves(setup, detectives, player, source) == {}
  {
  }

  /**
   * Every single move is made by `player` from `source` with a ticket other than
   * DOUBLE, to a neighbour of `source` that no detective occupies.
   */
  lemma SingleMovesShape(setup: GameSetup, detectives: seq<Player>, player: Player, source: int, m: SingleMove)
    requires m in SingleMoves(setup, detectives, player, source)
    ensures m.mover == player.piece && m.source == source && m.ticket != Double
    ensures m.destination in Adjacent(setup.graph, source) && !Occupied(detectives, m.destination)
  {
  }

  /**
   * A single move is generated exactly when it leads to an adjacent node no
   * detective occupies and the edge offers its ticket.
   */
  lemma SingleMovesIff(setup: GameSetup, detectives: seq<Player>, player: Player, source: int, m: SingleMove)
    ensures m in SingleMoves(setup, detectives, player, source) <==>
              && m.mover == player.piece && m.source == source
              && m.destination in Adjacent(setup.graph, source) && !Occupied(detectives, m.destination)
              && Offered(player, Transports(setup.graph, source, m.destination), m.ticket)
  {
    EdgeMovesIff(player, source, m.destination, Transports(setup.graph, source, m.destination), false, m);
  }

  /**
   * A SECRET move to a free neighbour exists exactly when the edge has a transport
   * and the player holds SECRET, or a ferry on the edge is reached by the carried
   * flag (a ferry's required ticket is SECRET).
   */
  lemma SecretMoveIff(setup: GameSetup, detectives: seq<Player>, player: Player, source: int, destination: int)
    ensures SingleMove(player.piece, source, Secret, destination) in SingleMoves(setup, detectives, player, source)
            <==>
            && destination in Adjacent(setup.graph, source) && !Occupied(detectives, destination)
            && |Transports(setup.graph, source, destination)| > 0
            && (|| player.HasAtLeast(Secret, 1)
                || exists k :: 0 <= k < |Transports(setup.graph, source, destination)|
                               && Transports(setup.graph, source, destination)[k] == FerryRoute
                               && HeldUpTo(player, Transports(setup.graph, source, destination), k))
  {
    SingleMovesIff(setup, detectives, player, source, SingleMove(player.piece, source, Secret, destination));
  }

  /**
   * The flag is sticky: holding the ticket of the transport at position `j` of an
   * edge makes every later transport's ticket available too, held or not.
   */
  lemma StickyTicket(setup: GameSetup, detectives: seq<Player>, player: Player, source: int, destination: int,
                     j: int, k: int)
    requires destination in Adjacent(setup.graph, source) && !Occupied(detectives, destination)
    requires 0 <= j <= k < |Transports(setup.graph, source, destination)|
    requires player.Has(RequiredTicket(Transports(setup.graph, source, destination)[j]))
    ensures SingleMove(player.piece, source, RequiredTicket(Transports(setup.graph, source, destination)[k]),
                       destination) in SingleMoves(setup, detectives, player, source)
  {
    var ts := Transports(setup.graph, source, destination);
    var m := SingleMove(player.piece, source, RequiredTicket(ts[k]), destination);
    assert HeldUpTo(player, ts, k);
    SingleMovesIff(setup, detectives, player, source, m);
  }

  /** `MovesToward` grows one destination at a time. */
  lemma MovesTowardAdd(setup: GameSetup, detectives: seq<Player>, player: Player, source: int,
                       done: set<int>, d: int)
    ensures MovesToward(setup, detectives, player, source, done + {d})
            == MovesToward(setup, detectives, player, source, done)
               + (if Occupied(detectives, d) then {}
                  else EdgeMoves(player, source, d, Transports(setup.graph, source, d), false))
  {
  }

  /** One turn of the transport loop of an edge. */
  lemma EdgeMovesStep(player: Player, source: int, destination: int, transports: seq<Transport>, k: int,
                      hasTicket: bool)
    requires 0 <= k < |transports|
    ensures EdgeMoves(player, source, destination, transports[k..], hasTicket)
            == (var held := hasTicket || player.Has(RequiredTicket(transports[k]));
                (if held then {SingleMove(player.piece, source, RequiredTicket(transports[k]), destination)} else {})
                + (if player.HasAtLeast(Secret, 1) then {SingleMove(player.piece, source, Secret, destination)} else {})
                + EdgeMoves(player, source, destination, transports[k + 1..], held))
  {
    assert transports[k..][1..] == transports[k + 1..];
  }

  /**
   * The body of `makeSingleMoves`' loop for one destination: nothing when a
   * detective stands there, otherwise the moves offered by each transport of the
   * edge in turn, with the sticky `hasTicket` flag.
   */
  method MovesTo(setup: GameSetup, detectives: seq<Player>, player: Player, source: int, destination: int)
    returns (moves: set<SingleMove>)
    ensures moves == if Occupied(detectives, destination) then {}
                     else EdgeMoves(player, source, destination, Transports(setup.graph, source, destination), false)
  {
    moves := {};
    var isOccupied := false;
    var hasTicket := false;
    for i := 0 to |detectives|
      invariant !isOccupied
      invariant forall j :: 0 <= j < i ==> detectives[j].location != destination
    {
      if detectives[i].location == destination {
        isOccupied := true;
        break;
      }
    }
    if isOccupied {
      return;
    }
    var transports := Transports(setup.graph, source, destination);
    for k := 0 to |transports|
      invariant moves + EdgeMoves(player, source, destination, transports[k..], hasTicket)
                == EdgeMoves(player, source, destination, transports, false)
    {
      var t := transports[k];
      EdgeMovesStep(player, source, destination, transports, k, hasTicket);
      if player.Has(RequiredTicket(t)) {
        hasTicket := true;
      }
      if hasTicket {
        moves := moves + {SingleMove(player.piece, source, RequiredTicket(t), destination)};
      }
      if player.HasAtLeast(Secret, 1) {
        moves := moves + {SingleMove(player.piece, source, Secret, destination)};
      }
    }
  }

  /** `makeSingleMoves`: the union, over the neighbours of `source`, of the moves towards each. */
  method MakeSingleMoves(setup: GameSetup, detectives: seq<Player>, player: Player, source: int)
    returns (singleMoves: set<SingleMove>)
    ensures singleMoves == SingleMoves(setup, detectives, player, source)
  {
    singleMoves := {};
    var todo := Adjacent(setup.graph, source);
    ghost var done: set<int> := {};
    while todo != {}
      invariant todo + done == Adjacent(setup.graph, source)
      invariant singleMoves == MovesToward(setup, detectives, player, source, done)
      decreases |todo|
    {
      ghost var member := SomeMember(todo);
      var destination :| destination in todo;
      var moves := MovesTo(setup, detectives, player, source, destination);
      MovesTowardAdd(setup, detectives, player, source, done, destination);
      singleMoves := singleMoves + moves;
      todo := todo - {destination};
      done := done + {destination};
    }
    assert done == Adjacent(setup.graph, source);
  }

  /** Two legs may be combined unless they use the same ticket and the player holds fewer than two. */
  predicate Combinable(player: Player, first: SingleMove, second: SingleMove)
  {
    first.ticket == second.ticket ==> player.HasAtLeast(first.ticket, 2)
  }

  /** The double move made of two legs. */
  function Join(player: Player, source: int, first: SingleMove, second: SingleMove): DoubleMove
  {
    DoubleMove(player.piece, source, first.ticket, first.destination, second.ticket, second.destination)
  }

  /** The double moves whose first leg is `first` and whose second leg is one of `seconds`. */
  function Continuations(player: Player, source: int, first: SingleMove, seconds: set<SingleMove>): set<DoubleMove>
  {
    set second | second in seconds && Combinable(player, first, second) :: Join(player, source, first, second)
  }

  /** The double moves whose first leg is one of `firsts`. */
  function DoublesVia(setup: GameSetup, detectives: seq<Player>, player: Player, source: int,
                      firsts: set<SingleMove>): set<DoubleMove>
  {
    set first, dm | first in firsts
                    && dm in Continuations(player, source, first,
                                           SingleMoves(setup, detectives, player, first.destination)) :: dm
  }

  /** All double moves of `player` from `source` (`makeDoubleMoves`). */
  function DoubleMoves(setup: GameSetup, detectives: seq<Player>, player: Player, source: int): (r: set<DoubleMove>)
    ensures r != {} ==> player.piece == MrX && player.HasAtLeast(Double, 1)
  {
    if player.piece == MrX && player.HasAtLeast(Double, 1) then
      DoublesVia(setup, detectives, player, source, SingleMoves(setup, detectives, player, source))
    else {}
  }

  /**
   * A double move is generated exactly for MrX holding a DOUBLE ticket, when its
   * first leg is a single move from `source`, its second leg a single move from the
   * first leg's destination (possibly back to `source`), and two equal tickets are
   * held at least twice.
   */
  lemma DoubleMovesIff(setup: GameSetup, detectives: seq<Player>, player: Player, source: int, dm: DoubleMove)
    ensures dm in DoubleMoves(setup, detectives, player, source) <==>
              && player.piece == MrX && player.HasAtLeast(Double, 1)
              && dm.mover == player.piece && dm.source == source
              && SingleMove(player.piece, source, dm.ticket1, dm.destination1)
                   in SingleMoves(setup, detectives, player, source)
              && SingleMove(player.piece, dm.destination1, dm.ticket2, dm.destination2)
                   in SingleMoves(setup, detectives, player, dm.destination1)
              && (dm.ticket1 == dm.ticket2 ==> player.HasAtLeast(dm.ticket1, 2))
  {
    var first := SingleMove(player.piece, source, dm.ticket1, dm.destination1);
    var second := SingleMove(player.piece, dm.destination1, dm.ticket2, dm.destination2);
    if dm in DoubleMoves(setup, detectives, player, source) {
      var f, d :| f in SingleMoves(setup, detectives, player, source)
                  && d in Continuations(player, source, f, SingleMoves(setup, detectives, player, f.destination))
                  && d == dm;
      var s :| s in SingleMoves(setup, detectives, player, f.destination) && Combinable(player, f, s)
               && Join(player, source, f, s) == dm;
      assert f == first && s == second;
    }
    if && player.piece == MrX && player.HasAtLeast(Double, 1) && dm.mover == player.piece && dm.source == source
       && first in SingleMoves(setup, detectives, player, source)
       && second in SingleMoves(setup, detectives, player, dm.destination1)
       && Combinable(player, first, second) {
      assert dm == Join(player, source, first, second);
      assert dm in Continuations(player, source, first, SingleMoves(setup, detectives, player, first.destination));
    }
  }

  /** `Continuations` grows one second leg at a time. */
  lemma ContinuationsAdd(player: Player, source: int, first: SingleMove, seconds: set<SingleMove>, second: SingleMove)
    ensures Continuations(player, source, first, seconds + {second})
            == Continuations(player, source, first, seconds)
               + (if Combinable(player, first, second) then {Join(player, source, first, second)} else {})
  {
  }

  /** `DoublesVia` grows one first leg at a time. */
  lemma DoublesViaAdd(setup: GameSetup, detectives: seq<Player>, player: Player, source: int,
                      firsts: set<SingleMove>, first: SingleMove)
    ensures DoublesVia(setup, detectives, player, source, firsts + {first})
            == DoublesVia(setup, detectives, player, source, firsts)
               + Continuations(player, source, first, SingleMoves(setup, detectives, player, first.destination))
  {
  }

  /**
   * The inner loop of `makeDoubleMoves` for one first leg `i`: every second leg
   * `j`, skipping a pair with equal tickets when fewer than two are held.
   */
  method JoinSecondLegs(player: Player, source: int, i: SingleMove, seconds: set<SingleMove>)
    returns (joined: set<DoubleMove>)
    ensures joined == Continuations(player, source, i, seconds)
  {
    joined := {};
    var todo := seconds;
    ghost var done: set<SingleMove> := {};
    while todo != {}
      invariant todo + done == seconds
      invariant joined == Continuations(player, source, i, done)
      decreases |todo|
    {
      ghost var member := SomeMember(todo);
      var j :| j in todo;
      todo := todo - {j};
      ContinuationsAdd(player, source, i, done, j);
      done := done + {j};
      if i.ticket == j.ticket {
        if !player.HasAtLeast(i.ticket, 2) {
          continue;
        }
      }
      joined := joined + {DoubleMove(player.piece, source, i.ticket, i.destination, j.ticket, j.destination)};
    }
    assert done == seconds;
  }

  /** The outer loop of `makeDoubleMoves`: each first leg joined with the single moves from its destination. */
  method JoinFirstLegs(setup: GameSetup, detectives: seq<Player>, player: Player, source: int,
                       firsts: set<SingleMove>)
    returns (doubleMoves: set<DoubleMove>)
    ensures doubleMoves == DoublesVia(setup, detectives, player, source, firsts)
  {
    doubleMoves := {};
    var todo := firsts;
    ghost var done: set<SingleMove> := {};
    while todo != {}
      invariant todo + done == firsts
      invariant doubleMoves == DoublesVia(setup, detectives, player, source, done)
      decreases |todo|
    {
      ghost var member := SomeMember(todo);
      var i :| i in todo;
      todo := todo - {i};
      DoublesViaAdd(setup, detectives, player, source, done, i);
      done := done + {i};
      var seconds := MakeSingleMoves(setup, detectives, player, i.destination);
      var joined := JoinSecondLegs(player, source, i, seconds);
      doubleMoves := doubleMoves + joined;
    }
    assert done == firsts;
  }

  /** `makeDoubleMoves`: double moves exist only for MrX holding a DOUBLE ticket. */
  method MakeDoubleMoves(setup: GameSetup, detectives: seq<Player>, player: Player, source: int)
    returns (doubleMoves: set<DoubleMove>)
    ensures doubleMoves == DoubleMoves(setup, detectives, player, source)
  {
    doubleMoves := {};
    if player.piece == MrX && player.HasAtLeast(Double, 1) {
      var firsts := MakeSingleMoves(setup, detectives, player, source);
      doubleMoves := JoinFirstLegs(setup, detectives, player, source, firsts);
    }
  }
}
