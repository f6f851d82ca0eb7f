/**
 * The checks the game-state constructor runs on its arguments, in the order it
 * runs them; the first failing check decides the error.
 */
module Validation {
  import opened Wrappers
  import opened ScotlandYard

  /** Why a configuration is refused. */
  datatype SetupError =
    | EmptyRounds
    | NullMrX
    | NullDetectives
    | EmptyGraph
    | MrXIsDetective
    | DuplicateDetectives
    | MrXInDetectives
    | DuplicateSpawnLocations
    | DetectiveHasSecret
    | DetectiveHasDouble

  /** The pieces of `players`, in order. */
  function PieceList(players: seq<Player>): (r: seq<Piece>)
    ensures |r| == |players|
    ensures forall i :: 0 <= i < |players| ==> r[i] == players[i].piece
  {
    seq(|players|, i requires 0 <= i < |players| => players[i].piece)
  }

  /** The locations of `players`, in order. */
  function LocationList(players: seq<Player>): (r: seq<int>)
    ensures |r| == |players|
    ensures forall i :: 0 <= i < |players| ==> r[i] == players[i].location
  {
    seq(|players|, i requires 0 <= i < |players| => players[i].location)
  }

  /** The checks on detective `i`, given that the detectives before it passed theirs. */
  function DetectiveError(detectives: seq<Player>, i: nat): Option<SetupError>
    requires i < |detectives|
  {
    var d := detectives[i];
    if d.piece in PieceList(detectives[..i]) then Some(DuplicateDetectives)
    else if d.piece == MrX then Some(MrXInDetectives)
    else if d.location in LocationList(detectives[..i]) then Some(DuplicateSpawnLocations)
    else if Count(d.tickets, Secret) > 0 then Some(DetectiveHasSecret)
    else if Count(d.tickets, Double) > 0 then Some(DetectiveHasDouble)
    else None
  }

  /** The first error found among the detectives from position `i` on. */
  function FirstDetectiveError(detectives: seq<Player>, i: nat): Option<SetupError>
    requires i <= |detectives|
    decreases |detectives| - i
  {
    if i == |detectives| then None
    else if DetectiveError(detectives, i).Some? then DetectiveError(detectives, i)
    else FirstDetectiveError(detectives, i + 1)
  }

  /**
   * The error the constructor throws, if any. An absent `mrX` or `detectives`
   * stands for a null reference.
   */
  function CheckSetup(setup: GameSetup, mrX: Option<Player>, detectives: Option<seq<Player>>): (r: Option<SetupError>)
    ensures r.None? ==> && mrX.Some? && detectives.Some? && |setup.rounds| > 0 && |setup.graph.nodes| > 0
                        && !mrX.value.piece.Detective?
  {
    if |setup.rounds| == 0 then Some(EmptyRounds)
    else if mrX.None? then Some(NullMrX)
    else if detectives.None? then Some(NullDetectives)
    else if |setup.graph.nodes| == 0 then Some(EmptyGraph)
    else if mrX.value.piece.Detective? then Some(MrXIsDetective)
    else FirstDetectiveError(detectives.value, 0)
  }

  /** The detectives have distinct pieces and spawn locations, no MrX piece, and no SECRET or DOUBLE ticket. */
  predicate DetectivesWellFormed(detectives: seq<Player>)
  {
    && (forall i, j :: 0 <= i < j < |detectives| ==> detectives[i].piece != detectives[j].piece)
    && (forall i :: 0 <= i < |detectives| ==> detectives[i].piece.Detective?)
    && (forall i, j :: 0 <= i < j < |detectives| ==> detectives[i].location != detectives[j].location)
    && (forall i :: 0 <= i < |detectives| ==>
          Count(detectives[i].tickets, Secret) <= 0 && Count(detectives[i].tickets, Double) <= 0)
  }

  /** A configuration the constructor accepts, stated without the order of the checks. */
  predicate ValidSetup(setup: GameSetup, mrX: Player, detectives: seq<Player>)
  {
    |setup.rounds| > 0 && |setup.graph.nodes| > 0 && mrX.piece == MrX && DetectivesWellFormed(detectives)
  }

  /** The scan from position `i` finds nothing exactly when every detective from `i` on passes. */
  lemma {:induction false} FirstDetectiveErrorNone(detectives: seq<Player>, i: nat)
    requires i <= |detectives|
    ensures FirstDetectiveError(detectives, i).None?
            <==> forall k :: i <= k < |detectives| ==> DetectiveError(detectives, k).None?
    decreases |detectives| - i
  {
    if i < |detectives| {
      FirstDetectiveErrorNone(detectives, i + 1);
    }
  }

  /** An error found by the scan is the error of the first detective that fails. */
  lemma {:induction false} FirstDetectiveErrorSome(detectives: seq<Player>, i: nat, e: SetupError)
    requires i <= |detectives|
    requires FirstDetectiveError(detectives, i) == Some(e)
    ensures exists k :: i <= k < |detectives| && DetectiveError(detectives, k) == Some(e)
                        && forall j :: i <= j < k ==> DetectiveError(detectives, j).None?
    decreases |detectives| - i
  {
    if DetectiveError(detectives, i).None? {
      FirstDetectiveErrorSome(detectives, i + 1, e);
      var k :| i + 1 <= k < |detectives| && DetectiveError(detectives, k) == Some(e)
               && forall j :: i + 1 <= j < k ==> DetectiveError(detectives, j).None?;
      assert forall j :: i <= j < k ==> DetectiveError(detectives, j).None?;
    }
  }

  /** Every detective passes its checks exactly when the detectives are well formed. */
  lemma AllDetectivesPass(detectives: seq<Player>)
    ensures (forall k :: 0 <= k < |detectives| ==> DetectiveError(detectives, k).None?)
            <==> DetectivesWellFormed(detectives)
  {
    var ds := detectives;
    if forall k :: 0 <= k < |ds| ==> DetectiveError(ds, k).None? {
      forall i, j | 0 <= i < j < |ds|
        ensures ds[i].piece != ds[j].piece && ds[i].location != ds[j].location
      {
        assert DetectiveError(ds, j).None?;
        assert PieceList(ds[..j])[i] == ds[i].piece;
        assert LocationList(ds[..j])[i] == ds[i].location;
      }
      forall i | 0 <= i < |ds|
        ensures ds[i].piece.Detective?
        ensures Count(ds[i].tickets, Secret) <= 0 && Count(ds[i].tickets, Double) <= 0
      {
        assert DetectiveError(ds, i).None?;
      }
    }
    if DetectivesWellFormed(ds) {
      forall k | 0 <= k < |ds|
        ensures DetectiveError(ds, k).None?
      {
        assert ds[k].piece !in PieceList(ds[..k]);
        assert ds[k].location !in LocationList(ds[..k]);
      }
    }
  }

  /**
   * The constructor accepts exactly the valid configurations: MrX and the
   * detective list are present (an empty list is accepted) and `ValidSetup` holds.
   */
  lemma CheckSetupAccepts(setup: GameSetup, mrX: Option<Player>, detectives: Option<seq<Player>>)
    ensures CheckSetup(setup, mrX, detectives).None?
            <==> mrX.Some? && detectives.Some? && ValidSetup(setup, mrX.value, detectives.value)
  {
    if detectives.Some? {
      FirstDetectiveErrorNone(detectives.value, 0);
      AllDetectivesPass(detectives.value);
    }
  }

  /**
   * Each error names the first check that fails: the checks on the setup and on
   * MrX come first, in order, and a detective error is witnessed by a detective.
   */
  lemma CheckSetupReasons(setup: GameSetup, mrX: Option<Player>, detectives: Option<seq<Player>>)
    ensures CheckSetup(setup, mrX, detectives) == Some(EmptyRounds) <==> |setup.rounds| == 0
    ensures CheckSetup(setup, mrX, detectives) == Some(NullMrX) <==> |setup.rounds| > 0 && mrX.None?
    ensures CheckSetup(setup, mrX, detectives) == Some(NullDetectives)
            <==> |setup.rounds| > 0 && mrX.Some? && detectives.None?
    ensures CheckSetup(setup, mrX, detectives) == Some(EmptyGraph)
            <==> |setup.rounds| > 0 && mrX.Some? && detectives.Some? && |setup.graph.nodes| == 0
    ensures CheckSetup(setup, mrX, detectives) == Some(MrXIsDetective)
            <==> |setup.rounds| > 0 && mrX.Some? && detectives.Some? && |setup.graph.nodes| > 0
                 && mrX.value.piece.Detective?
    ensures CheckSetup(setup, mrX, detectives) == Some(DuplicateDetectives) ==>
              exists i, j :: 0 <= i < j < |detectives.value|
                             && detectives.value[i].piece == detectives.value[j].piece
    ensures CheckSetup(setup, mrX, detectives) == Some(MrXInDetectives) ==>
              exists i :: 0 <= i < |detectives.value| && detectives.value[i].piece == MrX
    ensures CheckSetup(setup, mrX, detectives) == Some(DuplicateSpawnLocations) ==>
              exists i, j :: 0 <= i < j < |detectives.value|
                             && detectives.value[i].location == detectives.value[j].location
    ensures CheckSetup(setup, mrX, detectives) == Some(DetectiveHasSecret) ==>
              exists i :: 0 <= i < |detectives.value| && Count(detectives.value[i].tickets, Secret) > 0
    ensures CheckSetup(setup, mrX, detectives) == Some(DetectiveHasDouble) ==>
              exists i :: 0 <= i < |detectives.value| && Count(detectives.value[i].tickets, Double) > 0
  {
    var r := CheckSetup(setup, mrX, detectives);
    if |setup.rounds| > 0 && mrX.Some? && detectives.Some? && |setup.graph.nodes| > 0 && mrX.value.piece == MrX
       && r.Some? {
      var ds := detectives.value;
      FirstDetectiveErrorSome(ds, 0, r.value);
      var k :| 0 <= k < |ds| && DetectiveError(ds, k) == r;
      if ds[k].piece in PieceList(ds[..k]) {
        var i :| 0 <= i < k && PieceList(ds[..k])[i] == ds[k].piece;
        assert ds[i].piece == ds[k].piece;
      } else if ds[k].piece != MrX && ds[k].location in LocationList(ds[..k]) {
        var i :| 0 <= i < k && LocationList(ds[..k])[i] == ds[k].location;
        assert ds[i].location == ds[k].location;
      }
    }
  }

  /** The constructor's checks, loop for loop; `usedPieces` and `detectiveSpawnLocations` grow as it goes. */
  method Validate(setup: GameSetup, mrX: Option<Player>, detectives: Option<seq<Player>>)
    returns (error: Option<SetupError>)
    ensures error == CheckSetup(setup, mrX, detectives)
  {
    if |setup.rounds| == 0 { return Some(EmptyRounds); }
    if mrX.None? { return Some(NullMrX); }
    if detectives.None? { return Some(NullDetectives); }
    if |setup.graph.nodes| == 0 { return Some(EmptyGraph); }
    if mrX.value.piece.Detective? { return Some(MrXIsDetective); }
    var ds := detectives.value;
    var usedPieces: seq<Piece> := [];
    var detectiveSpawnLocations: seq<int> := [];
    for i := 0 to |ds|
      invariant usedPieces == PieceList(ds[..i])
      invariant detectiveSpawnLocations == LocationList(ds[..i])
      invariant FirstDetectiveError(ds, 0) == FirstDetectiveError(ds, i)
    {
      var detective := ds[i];
      if detective.piece in usedPieces {
        return Some(DuplicateDetectives);
      }
      usedPieces := usedPieces + [detective.piece];
      if detective.piece == MrX {
        return Some(MrXInDetectives);
      }
      if detective.location in detectiveSpawnLocations {
        return Some(DuplicateSpawnLocations);
      }
      detectiveSpawnLocations := detectiveSpawnLocations + [detective.location];
      if Count(detective.tickets, Secret) > 0 {
        return Some(DetectiveHasSecret);
      }
      if Count(detective.tickets, Double) > 0 {
        return Some(DetectiveHasDouble);
      }
      assert ds[..i + 1] == ds[..i] + [detective];
    }
    return None;
  }
}
