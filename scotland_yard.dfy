/**
 * The game's primitive vocabulary: tickets, transports, pieces, players, moves,
 * travel-log entries, the transport graph and the game setup.
 *
 * These stand for library types whose bodies are not part of this model
 * (`ScotlandYard.Ticket`, `ScotlandYard.Transport`, `Piece`, `Player`, `Move`,
 * `LogEntry`, `GameSetup` and the Guava value graph). They are written as
 * plain values with the semantics the rules engine relies on.
 */
module ScotlandYard {

  /** The five kinds of ticket. SECRET and DOUBLE are meant for MrX only. */
  datatype Ticket = Taxi | Bus | Underground | Double | Secret

  /** The kinds of transport an edge of the map can carry. */
  datatype Transport = TaxiRoute | BusRoute | UndergroundRoute | FerryRoute

  /** The ticket needed to travel by a transport; a ferry is paid for with a SECRET ticket. */
  function RequiredTicket(t: Transport): (r: Ticket)
    ensures r != Double
    ensures r == Secret <==> t == FerryRoute
  {
    match t
    case TaxiRoute => Taxi
    case BusRoute => Bus
    case UndergroundRoute => Underground
    case FerryRoute => Secret
  }

  /** The detectives' colours. */
  datatype Colour = Red | Green | Blue | White | Yellow

  /** MrX, or one of the detectives identified by colour. */
  datatype Piece = MrX | Detective(colour: Colour)

  /**
   * A ticket inventory. A kind missing from the map is held zero times.
   * Counts are integers: spending a ticket decrements its count even when it is
   * not held, as `Player.use` does.
   */
  type TicketMap = map<Ticket, int>

  /** How many tickets of kind `t` the inventory holds. */
  function Count(tickets: TicketMap, t: Ticket): int
  {
    if t in tickets then tickets[t] else 0
  }

  /** The number of tickets of all kinds together. */
  function Total(tickets: TicketMap): int
  {
    Count(tickets, Taxi) + Count(tickets, Bus) + Count(tickets, Underground)
    + Count(tickets, Double) + Count(tickets, Secret)
  }

  /** Every ticket of `ts` is of one of the five kinds. */
  lemma {:induction false} KindsSum(ts: seq<Ticket>)
    ensures multiset(ts)[Taxi] + multiset(ts)[Bus] + multiset(ts)[Underground]
            + multiset(ts)[Double] + multiset(ts)[Secret] == |ts|
    decreases |ts|
  {
    if ts != [] {
      KindsSum(ts[1..]);
      assert ts == [ts[0]] + ts[1..];
      assert multiset(ts) == multiset{ts[0]} + multiset(ts[1..]);
      match ts[0]
      case Taxi =>
      case Bus =>
      case Underground =>
      case Double =>
      case Secret =>
    }
  }

  /** The inventory after spending one ticket for each entry of `ts`. */
  function Spend(tickets: TicketMap, ts: seq<Ticket>): (r: TicketMap)
    ensures forall t :: Count(r, t) == Count(tickets, t) - multiset(ts)[t]
    decreases |ts|
  {
    if ts == [] then tickets
    else
      assert ts == [ts[0]] + ts[1..];
      assert multiset(ts) == multiset{ts[0]} + multiset(ts[1..]);
      var next := tickets[ts[0] := Count(tickets, ts[0]) - 1];
      Spend(next, ts[1..])
  }

  /** The inventory after receiving one ticket for each entry of `ts`. */
  function Receive(tickets: TicketMap, ts: seq<Ticket>): (r: TicketMap)
    ensures forall t :: Count(r, t) == Count(tickets, t) + multiset(ts)[t]
    decreases |ts|
  {
    if ts == [] then tickets
    else
      assert ts == [ts[0]] + ts[1..];
      assert multiset(ts) == multiset{ts[0]} + multiset(ts[1..]);
      var next := tickets[ts[0] := Count(tickets, ts[0]) + 1];
      Receive(next, ts[1..])
  }

  /** Spending `ts` lowers the total by `|ts|`. */
  lemma SpendTotal(tickets: TicketMap, ts: seq<Ticket>)
    ensures Total(Spend(tickets, ts)) == Total(tickets) - |ts|
  {
    KindsSum(ts);
  }

  /** Receiving `ts` raises the total by `|ts|`. */
  lemma ReceiveTotal(tickets: TicketMap, ts: seq<Ticket>)
    ensures Total(Receive(tickets, ts)) == Total(tickets) + |ts|
  {
    KindsSum(ts);
  }

  /** A player: its piece, its ticket inventory and its current location. */
  datatype Player = Player(piece: Piece, tickets: TicketMap, location: int)
  {
    /** Holds at least one ticket of kind `t`. */
    predicate Has(t: Ticket)
    {
      HasAtLeast(t, 1)
    }

    /** Holds at least `n` tickets of kind `t`. */
    predicate HasAtLeast(t: Ticket, n: int)
    {
      Count(tickets, t) >= n
    }

    /** The same player after spending the tickets `ts`. */
    function Use(ts: seq<Ticket>): (r: Player)
      ensures r.piece == piece && r.location == location
      ensures r.tickets == Spend(tickets, ts)
    {
      this.(tickets := Spend(tickets, ts))
    }

    /** The same player after being given the tickets `ts`. */
    function Give(ts: seq<Ticket>): (r: Player)
      ensures r.piece == piece && r.location == location
      ensures r.tickets == Receive(tickets, ts)
    {
      this.(tickets := Receive(tickets, ts))
    }

    /** The same player relocated to `destination`. */
    function At(destination: int): (r: Player)
      ensures r.piece == piece && r.tickets == tickets && r.location == destination
    {
      this.(location := destination)
    }
  }

  /** A move along one edge. */
  datatype SingleMove = SingleMove(mover: Piece, source: int, ticket: Ticket, destination: int)

  /** Two consecutive moves made by MrX in one turn with a DOUBLE ticket. */
  datatype DoubleMove = DoubleMove(mover: Piece, source: int, ticket1: Ticket, destination1: int,
                                   ticket2: Ticket, destination2: int)

  /** A move of either kind, compared structurally. */
  datatype Move = OfSingle(single: SingleMove) | OfDouble(double: DoubleMove)
  {
    /** The piece that makes the move (`Move.commencedBy`). */
    function Mover(): Piece
    {
      match this
      case OfSingle(m) => m.mover
      case OfDouble(m) => m.mover
    }

    /** The tickets the move spends (`Move.tickets`): a double move also spends a DOUBLE ticket. */
    function Tickets(): (r: seq<Ticket>)
      ensures OfSingle? ==> r == [single.ticket]
      ensures OfDouble? ==> r == [Double, double.ticket1, double.ticket2]
    {
      match this
      case OfSingle(m) => [m.ticket]
      case OfDouble(m) => [Double, m.ticket1, m.ticket2]
    }

    /** Where the mover ends up. */
    function FinalDestination(): int
    {
      match this
      case OfSingle(m) => m.destination
      case OfDouble(m) => m.destination2
    }
  }

  /** An entry of MrX's travel log: the ticket only, or the ticket and a location. */
  datatype LogEntry = Hidden(ticket: Ticket) | Revealed(ticket: Ticket, location: int)

  /**
   * The transport graph: its nodes, and for each node the transports on the edge
   * to each neighbour, in the order the graph enumerates them.
   */
  datatype Graph = Graph(nodes: set<int>, edges: map<int, map<int, seq<Transport>>>)

  /** The nodes adjacent to `source` (`adjacentNodes`). */
  function Adjacent(g: Graph, source: int): set<int>
  {
    if source in g.edges then g.edges[source].Keys else {}
  }

  /** The transports on the edge from `source` to `destination`, empty if none (`edgeValueOrDefault`). */
  function Transports(g: Graph, source: int, destination: int): seq<Transport>
  {
    if source in g.edges && destination in g.edges[source] then g.edges[source][destination] else []
  }

  /** The map and, per round, whether MrX's location is revealed that round. */
  datatype GameSetup = GameSetup(graph: Graph, rounds: seq<bool>)
}
