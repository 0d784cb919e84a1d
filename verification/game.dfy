/** The `Game` state machine: setup and reset, move resolution, win detection
    and turn alternation, as pure transitions over an immutable state record.
    The random draws of placement are parameters; the computer's timed random
    move is not part of this model. */
module Game {
  import opened Wrappers
  import opened Grid
  import opened Placement

  datatype Player = Player1 | Player2 | Computer

  /** The published and private state of `Game`. `playerShips` is placed first
      and `computerShips` second, on the same owner-less board. */
  datatype GameState = GameState(
    board: Board,
    playerShips: seq<PlacedShip>,
    computerShips: seq<PlacedShip>,
    currentPlayer: Player,
    gameOver: bool,
    winner: Option<Player>)

  /** The shape every state has: an 8×8 board and fleets whose cells index it. */
  predicate WellFormed(g: GameState) {
    ValidBoard(g.board) && FleetInBounds(g.playerShips) && FleetInBounds(g.computerShips)
  }

  /** `Ship.isSunk`, with the board passed in instead of read from the shared
      game: every position of the ship reads `.hit`. */
  predicate IsSunk(s: PlacedShip, b: Board)
    requires ValidBoard(b) && ShipInBounds(s)
  {
    forall i :: 0 <= i < |s.positions| ==> At(b, s.positions[i]) == Hit
  }

  /** `ships.allSatisfy { $0.isSunk }`; an empty fleet counts as sunk. */
  predicate FleetSunk(ships: seq<PlacedShip>, b: Board): (r: bool)
    requires ValidBoard(b) && FleetInBounds(ships)
    ensures |ships| == 0 ==> r
  {
    forall j :: 0 <= j < |ships| ==> IsSunk(ships[j], b)
  }

  /** A ship is sunk exactly when all of its cells are among the board's `.hit` cells. */
  lemma IsSunkIffAllHit(s: PlacedShip, b: Board)
    requires ValidBoard(b) && ShipInBounds(s)
    ensures IsSunk(s, b) <==> PosSet(s.positions) <= Cells(b, Hit)
  {
  }

  /** A fleet is sunk exactly when all of its cells are among the board's `.hit` cells. */
  lemma FleetSunkIffAllHit(ships: seq<PlacedShip>, b: Board)
    requires ValidBoard(b) && FleetInBounds(ships)
    ensures FleetSunk(ships, b) <==> Covered(ships) <= Cells(b, Hit)
  {
    if FleetSunk(ships, b) {
      forall q | q in Covered(ships)
        ensures q in Cells(b, Hit)
      {
        var j :| 0 <= j < |ships| && q in ships[j].positions;
        var i :| 0 <= i < |ships[j].positions| && ships[j].positions[i] == q;
        assert IsSunk(ships[j], b);
      }
    }
    if Covered(ships) <= Cells(b, Hit) {
      forall j | 0 <= j < |ships|
        ensures IsSunk(ships[j], b)
      {
        forall i | 0 <= i < |ships[j].positions|
          ensures At(b, ships[j].positions[i]) == Hit
        {
          assert ships[j].positions[i] in Covered(ships);
        }
      }
    }
  }

  /** `checkWinCondition`: the winner label depends only on which fleet is
      sunk, never on who moved. A sunk `playerShips` makes `.computer` the
      winner and is checked first; otherwise a sunk `computerShips` makes
      `.player1` the winner; otherwise nothing changes. */
  function CheckWinCondition(g: GameState): (r: GameState)
    requires WellFormed(g)
    ensures r.board == g.board && r.playerShips == g.playerShips && r.computerShips == g.computerShips
    ensures r.currentPlayer == g.currentPlayer
    ensures FleetSunk(g.playerShips, g.board) ==> r.gameOver && r.winner == Some(Computer)
    ensures !FleetSunk(g.playerShips, g.board) && FleetSunk(g.computerShips, g.board) ==>
      r.gameOver && r.winner == Some(Player1)
    ensures !FleetSunk(g.playerShips, g.board) && !FleetSunk(g.computerShips, g.board) ==> r == g
  {
    if FleetSunk(g.playerShips, g.board) then g.(gameOver := true, winner := Some(Computer))
    else if FleetSunk(g.computerShips, g.board) then g.(gameOver := true, winner := Some(Player1))
    else g
  }

  /** `switchTurn`: `.player1` hands over to `.player2` and every other player,
      `.computer` included, hands over to `.player1`. It never yields `.computer`. */
  function SwitchTurn(p: Player): (r: Player)
    ensures r != Computer
    ensures r == Player2 <==> p == Player1
  {
    if p == Player1 then Player2 else Player1
  }

  /** Between the two human players the turn alternates: it always changes and
      two switches give it back. */
  lemma SwitchTurnAlternates(p: Player)
    requires p != Computer
    ensures SwitchTurn(p) != p
    ensures SwitchTurn(SwitchTurn(p)) == p
  {
  }

  /** The guard of `makeMove`: the game is running and the target cell has not
      been fired at. */
  predicate Accepts(g: GameState, p: Pos)
    requires ValidBoard(g.board) && InBounds(p)
  {
    !g.gameOver && (At(g.board, p) == Empty || At(g.board, p) == Ship)
  }

  /** `makeMove(at: x, y:)`. A move after the game is over or on a resolved cell
      changes nothing. Otherwise the target turns `.ship` into `.hit` and `.empty`
      into `.miss`, no other cell changes, the resolved cells grow by exactly
      the target, the win condition is evaluated on the new board, and the turn
      passes on only when the game did not end. The turn never passes to
      `.computer`, so the computer's move is never triggered. */
  function MakeMove(g: GameState, x: int, y: int): (r: GameState)
    requires WellFormed(g) && 0 <= x < Size && 0 <= y < Size
    ensures WellFormed(r)
    ensures r.playerShips == g.playerShips && r.computerShips == g.computerShips
    ensures !Accepts(g, Pos(x, y)) ==> r == g
    ensures Accepts(g, Pos(x, y)) ==>
      At(r.board, Pos(x, y)) == if At(g.board, Pos(x, y)) == Ship then Hit else Miss
    ensures forall q :: InBounds(q) && q != Pos(x, y) ==> At(r.board, q) == At(g.board, q)
    ensures Accepts(g, Pos(x, y)) ==>
      Pos(x, y) !in Resolved(g.board) && Resolved(r.board) == Resolved(g.board) + {Pos(x, y)}
    ensures Accepts(g, Pos(x, y)) ==> |Resolved(r.board)| == |Resolved(g.board)| + 1
    ensures Accepts(g, Pos(x, y)) ==>
      (r.gameOver <==> FleetSunk(g.playerShips, r.board) || FleetSunk(g.computerShips, r.board))
    ensures Accepts(g, Pos(x, y)) && FleetSunk(g.playerShips, r.board) ==> r.winner == Some(Computer)
    ensures Accepts(g, Pos(x, y)) && !FleetSunk(g.playerShips, r.board) && FleetSunk(g.computerShips, r.board) ==>
      r.winner == Some(Player1)
    ensures Accepts(g, Pos(x, y)) && !r.gameOver ==>
      r.winner == g.winner && r.currentPlayer == SwitchTurn(g.currentPlayer)
    ensures Accepts(g, Pos(x, y)) && r.gameOver ==> r.currentPlayer == g.currentPlayer
    ensures r.currentPlayer != Computer || r.currentPlayer == g.currentPlayer
  {
    var p := Pos(x, y);
    if !Accepts(g, p) then g
    else
      var b := Update(g.board, p, if At(g.board, p) == Ship then Hit else Miss);
      ResolveOneCell(g.board, p, At(b, p));
      var checked := CheckWinCondition(g.(board := b));
      if !checked.gameOver then checked.(currentPlayer := SwitchTurn(checked.currentPlayer))
      else checked
  }

  /** The winner a move produces does not depend on whose turn it was. */
  lemma WinnerIgnoresMover(g: GameState, x: int, y: int, mover: Player)
    requires WellFormed(g) && 0 <= x < Size && 0 <= y < Size
    ensures MakeMove(g.(currentPlayer := mover), x, y).winner == MakeMove(g, x, y).winner
    ensures MakeMove(g.(currentPlayer := mover), x, y).gameOver == MakeMove(g, x, y).gameOver
  {
  }

  /** A fleet of the five standard sizes, in order. */
  predicate StandardFleet(ships: seq<PlacedShip>) {
    |ships| == |FleetSizes| &&
    forall j :: 0 <= j < |ships| ==> ships[j].size == FleetSizes[j] && |ships[j].positions| == FleetSizes[j]
  }

  /** Two standard fleets of which no two ships, of the same fleet or not, share a cell. */
  predicate FleetsInv(playerShips: seq<PlacedShip>, computerShips: seq<PlacedShip>) {
    StandardFleet(playerShips) && StandardFleet(computerShips) && PairwiseDisjoint(playerShips + computerShips)
  }

  /** The cells of both fleets. */
  function ShipCells(g: GameState): set<Pos> {
    Covered(g.playerShips) + Covered(g.computerShips)
  }

  /** The board agrees with the fleets: a cell belongs to some ship exactly when
      it reads `.ship` or `.hit`. */
  ghost predicate Consistent(g: GameState)
    requires WellFormed(g)
  {
    forall q :: InBounds(q) ==> (q in ShipCells(g) <==> At(g.board, q) == Ship || At(g.board, q) == Hit)
  }

  /** The game is over exactly when a fleet is sunk, and the winner is named
      after the sunk fleet: `.computer` when `playerShips` is sunk, otherwise
      `.player1`. */
  ghost predicate OutcomeInv(g: GameState)
    requires WellFormed(g)
  {
    && (g.gameOver <==> FleetSunk(g.playerShips, g.board) || FleetSunk(g.computerShips, g.board))
    && (g.gameOver ==> g.winner == Some(if FleetSunk(g.playerShips, g.board) then Computer else Player1))
    && (!g.gameOver ==> g.winner == None)
  }

  /** The layout `setupShips` leaves: two standard disjoint fleets of 17 cells
      each, the board agreeing with them, nothing fired at yet, exactly the 34
      fleet cells reading `.ship`, and the corner (7, 7) empty. */
  ghost predicate FreshLayout(g: GameState) {
    && WellFormed(g)
    && FleetsInv(g.playerShips, g.computerShips)
    && |Covered(g.playerShips)| == 17 && |Covered(g.computerShips)| == 17
    && Consistent(g)
    && Resolved(g.board) == {}
    && Cells(g.board, Ship) == ShipCells(g)
    && |Cells(g.board, Ship)| == 34
    && At(g.board, Pos(Size - 1, Size - 1)) == Empty
  }

  /** The invariant of every state reachable through `NewGame`, `ResetGame` and
      `MakeMove`: standard disjoint fleets consistent with the board, the turn
      with one of the two human players, and the outcome matching the fleets. */
  ghost predicate Inv(g: GameState) {
    && WellFormed(g)
    && FleetsInv(g.playerShips, g.computerShips)
    && Consistent(g)
    && g.currentPlayer != Computer
    && OutcomeInv(g)
  }

  /** `setupShips`: clear the board, place the player's fleet, then the
      computer's fleet on the cells the player's left empty. `None` when some
      ship's supply of draws ran out before one was accepted. */
  function SetupShips(g: GameState, playerDraws: seq<seq<Draw>>, computerDraws: seq<seq<Draw>>): (r: Option<GameState>)
    requires DrawsFor(FleetSizes, playerDraws) && DrawsFor(FleetSizes, computerDraws)
    ensures r.Some? ==> FreshLayout(r.value)
    ensures r.Some? ==> ShipsFromDraws(r.value.playerShips, FleetSizes, playerDraws)
    ensures r.Some? ==> ShipsFromDraws(r.value.computerShips, FleetSizes, computerDraws)
    ensures r.Some? ==> PlacedInOrder(EmptyBoard(), {}, r.value.playerShips, FleetSizes, playerDraws)
    ensures r.Some? ==>
      PlacedInOrder(EmptyBoard(), Covered(r.value.playerShips), r.value.computerShips, FleetSizes, computerDraws)
    ensures r.Some? ==> r.value.currentPlayer == g.currentPlayer
    ensures r.Some? ==> r.value.gameOver == g.gameOver && r.value.winner == g.winner
  {
    var empty := EmptyBoard();
    match PlaceShips(empty, FleetSizes, playerDraws)
    case None => None
    case Some(pf) =>
      match PlaceShips(pf.board, FleetSizes, computerDraws)
      case None => None
      case Some(cf) =>
        var r := g.(board := cf.board, playerShips := pf.ships, computerShips := cf.ships);
        SetupLayout(r, empty, pf, cf, playerDraws, computerDraws);
        PlaceShipsInOrder(empty, FleetSizes, playerDraws);
        PlaceShipsInOrder(pf.board, FleetSizes, computerDraws);
        SecondFleetInOrder(empty, pf, cf.ships, computerDraws);
        Some(r)
  }

  /** The second fleet was placed in order on the board the first fleet left,
      that is, on the board before it with the first fleet's cells taken. */
  lemma SecondFleetInOrder(b: Board, pf: FleetPlacement, ships: seq<PlacedShip>, draws: seq<seq<Draw>>)
    requires ValidBoard(b) && DrawsFor(FleetSizes, draws)
    requires StampedOn(b, pf.ships, pf.board)
    requires PlacedInOrder(pf.board, {}, ships, FleetSizes, draws)
    ensures PlacedInOrder(b, Covered(pf.ships), ships, FleetSizes, draws)
  {
    InOrderStamped(b, pf.board, Covered(pf.ships), {}, ships, FleetSizes, draws);
    assert Covered(pf.ships) + {} == Covered(pf.ships);
  }

  /** When the first draws of all ten ships lie on distinct cells, setup takes
      every ship from its first draw and succeeds. */
  lemma SetupShipsSucceeds(g: GameState, playerDraws: seq<seq<Draw>>, computerDraws: seq<seq<Draw>>)
    requires DrawsFor(FleetSizes, playerDraws) && DrawsFor(FleetSizes, computerDraws)
    requires FirstDrawsFit(EmptyBoard(), FleetSizes, playerDraws)
    requires FirstDrawsFit(EmptyBoard(), FleetSizes, computerDraws)
    requires forall i, j :: 0 <= i < |FleetSizes| && 0 <= j < |FleetSizes| ==>
      PosSet(Positions(FleetSizes[i], playerDraws[i][0])) !! PosSet(Positions(FleetSizes[j], computerDraws[j][0]))
    ensures SetupShips(g, playerDraws, computerDraws).Some?
    ensures forall j :: 0 <= j < |FleetSizes| ==>
      SetupShips(g, playerDraws, computerDraws).value.playerShips[j] ==
        PlacedShip(FleetSizes[j], Positions(FleetSizes[j], playerDraws[j][0]))
    ensures forall j :: 0 <= j < |FleetSizes| ==>
      SetupShips(g, playerDraws, computerDraws).value.computerShips[j] ==
        PlacedShip(FleetSizes[j], Positions(FleetSizes[j], computerDraws[j][0]))
  {
    var empty := EmptyBoard();
    PlaceShipsSucceeds(empty, FleetSizes, playerDraws);
    var pf := PlaceShips(empty, FleetSizes, playerDraws).value;
    SecondFleetFits(empty, pf, playerDraws, computerDraws);
    PlaceShipsSucceeds(pf.board, FleetSizes, computerDraws);
    SetupShipsFleets(g, playerDraws, computerDraws);
  }

  /** The computer's first draws, empty on the empty board and clear of the
      player's first draws, still fit on the board the player's fleet left. */
  lemma SecondFleetFits(b: Board, pf: FleetPlacement, playerDraws: seq<seq<Draw>>, computerDraws: seq<seq<Draw>>)
    requires ValidBoard(b) && DrawsFor(FleetSizes, playerDraws) && DrawsFor(FleetSizes, computerDraws)
    requires FirstDrawsFit(b, FleetSizes, playerDraws) && FirstDrawsFit(b, FleetSizes, computerDraws)
    requires forall i, j :: 0 <= i < |FleetSizes| && 0 <= j < |FleetSizes| ==>
      PosSet(Positions(FleetSizes[i], playerDraws[i][0])) !! PosSet(Positions(FleetSizes[j], computerDraws[j][0]))
    requires StampedOn(b, pf.ships, pf.board) && |pf.ships| == |FleetSizes|
    requires forall j :: 0 <= j < |FleetSizes| ==>
      pf.ships[j] == PlacedShip(FleetSizes[j], Positions(FleetSizes[j], playerDraws[j][0]))
    ensures FirstDrawsFit(pf.board, FleetSizes, computerDraws)
  {
    forall j | 0 <= j < |FleetSizes|
      ensures AllEmpty(pf.board, Positions(FleetSizes[j], computerDraws[j][0]))
    {
      var cs := Positions(FleetSizes[j], computerDraws[j][0]);
      forall i | 0 <= i < |cs|
        ensures At(pf.board, cs[i]) == Empty
      {
        forall k | 0 <= k < |pf.ships|
          ensures cs[i] !in pf.ships[k].positions
        {
          assert cs[i] in PosSet(cs);
          assert PosSet(pf.ships[k].positions) !! PosSet(cs);
        }
      }
    }
  }

  /** Setup succeeds exactly with the two fleets the placements produce. */
  lemma SetupShipsFleets(g: GameState, playerDraws: seq<seq<Draw>>, computerDraws: seq<seq<Draw>>)
    requires DrawsFor(FleetSizes, playerDraws) && DrawsFor(FleetSizes, computerDraws)
    requires PlaceShips(EmptyBoard(), FleetSizes, playerDraws).Some?
    requires PlaceShips(PlaceShips(EmptyBoard(), FleetSizes, playerDraws).value.board, FleetSizes, computerDraws).Some?
    ensures SetupShips(g, playerDraws, computerDraws).Some?
    ensures SetupShips(g, playerDraws, computerDraws).value.playerShips ==
      PlaceShips(EmptyBoard(), FleetSizes, playerDraws).value.ships
    ensures SetupShips(g, playerDraws, computerDraws).value.computerShips ==
      PlaceShips(PlaceShips(EmptyBoard(), FleetSizes, playerDraws).value.board, FleetSizes, computerDraws).value.ships
  {
    var pf := PlaceShips(EmptyBoard(), FleetSizes, playerDraws).value;
    var cf := PlaceShips(pf.board, FleetSizes, computerDraws).value;
    assert SetupShips(g, playerDraws, computerDraws) ==
      Some(g.(board := cf.board, playerShips := pf.ships, computerShips := cf.ships));
  }

  /** Ships built from in-range draws never cover the corner (7, 7). */
  lemma CornerNotCovered(ships: seq<PlacedShip>, sizes: seq<nat>, draws: seq<seq<Draw>>)
    requires DrawsFor(sizes, draws) && ShipsFromDraws(ships, sizes, draws)
    ensures Pos(Size - 1, Size - 1) !in Covered(ships)
  {
    forall j | 0 <= j < |ships|
      ensures Pos(Size - 1, Size - 1) !in ships[j].positions
    {
      assert FromDraws(ships[j], sizes[j], draws[j]);
      var k :| 0 <= k < |draws[j]| && ships[j] == PlacedShip(sizes[j], Positions(sizes[j], draws[j][k]));
      forall i | 0 <= i < |ships[j].positions|
        ensures ships[j].positions[i] != Pos(Size - 1, Size - 1)
      {
        AnchorStopsShort(sizes[j], draws[j][k], i);
      }
    }
  }

  /** Ships built from draws for the standard sizes form a standard fleet. */
  lemma StandardFromDraws(ships: seq<PlacedShip>, draws: seq<seq<Draw>>)
    requires ShipsFromDraws(ships, FleetSizes, draws)
    ensures StandardFleet(ships)
  {
    forall j | 0 <= j < |ships|
      ensures ships[j].size == FleetSizes[j] && |ships[j].positions| == FleetSizes[j]
    {
      assert FromDraws(ships[j], FleetSizes[j], draws[j]);
    }
  }

  /** The board after both placements of `setupShips`: a fleet cell of either
      fleet reads `.ship`, every other cell `.empty`; the fleets share no cell. */
  lemma SetupBoard(empty: Board, pf: FleetPlacement, cf: FleetPlacement,
                   playerDraws: seq<seq<Draw>>, computerDraws: seq<seq<Draw>>)
    requires empty == EmptyBoard()
    requires PlacedFleet(empty, FleetSizes, playerDraws, pf)
    requires PlacedFleet(pf.board, FleetSizes, computerDraws, cf)
    ensures Covered(pf.ships) !! Covered(cf.ships)
    ensures ValidBoard(cf.board)
    ensures forall q :: InBounds(q) ==>
      At(cf.board, q) == if q in Covered(pf.ships) + Covered(cf.ships) then Ship else Empty
    ensures FleetInBounds(pf.ships) && FleetInBounds(cf.ships)
    ensures forall q :: q in Covered(pf.ships) + Covered(cf.ships) ==> InBounds(q)
    ensures |Covered(pf.ships)| == 17 && |Covered(cf.ships)| == 17
  {
    assert Sum(FleetSizes) == 17;
    forall q | q in Covered(cf.ships)
      ensures q !in Covered(pf.ships)
    {
      assert At(pf.board, q) == Empty;
    }
  }

  /** The two placements of `setupShips` together give a fresh layout. */
  lemma SetupLayout(g: GameState, empty: Board, pf: FleetPlacement, cf: FleetPlacement,
                    playerDraws: seq<seq<Draw>>, computerDraws: seq<seq<Draw>>)
    requires empty == EmptyBoard()
    requires DrawsFor(FleetSizes, playerDraws) && DrawsFor(FleetSizes, computerDraws)
    requires PlacedFleet(empty, FleetSizes, playerDraws, pf)
    requires PlacedFleet(pf.board, FleetSizes, computerDraws, cf)
    requires g.board == cf.board && g.playerShips == pf.ships && g.computerShips == cf.ships
    ensures FreshLayout(g)
  {
    SetupBoard(empty, pf, cf, playerDraws, computerDraws);
    CornerNotCovered(pf.ships, FleetSizes, playerDraws);
    CornerNotCovered(cf.ships, FleetSizes, computerDraws);
    StandardFromDraws(pf.ships, playerDraws);
    StandardFromDraws(cf.ships, computerDraws);
    ConcatDisjoint(pf.ships, cf.ships);
    FreshFromBoard(g);
  }

  /** A state whose fleets are standard and disjoint, whose board reads `.ship`
      on exactly the fleet cells and `.empty` elsewhere, and whose fleets avoid
      the corner, is a fresh layout. */
  lemma FreshFromBoard(g: GameState)
    requires ValidBoard(g.board) && FleetInBounds(g.playerShips) && FleetInBounds(g.computerShips)
    requires FleetsInv(g.playerShips, g.computerShips)
    requires Covered(g.playerShips) !! Covered(g.computerShips)
    requires |Covered(g.playerShips)| == 17 && |Covered(g.computerShips)| == 17
    requires forall q :: q in ShipCells(g) ==> InBounds(q)
    requires forall q :: InBounds(q) ==> At(g.board, q) == if q in ShipCells(g) then Ship else Empty
    requires Pos(Size - 1, Size - 1) !in ShipCells(g)
    ensures FreshLayout(g)
  {
    SetupCells(g.board, Covered(g.playerShips), Covered(g.computerShips));
  }

  /** A board whose `.ship` cells are exactly two disjoint sets of 17 cells and
      whose other cells are empty has 34 `.ship` cells and none fired at. */
  lemma SetupCells(b: Board, P: set<Pos>, C: set<Pos>)
    requires ValidBoard(b) && P !! C && |P| == 17 && |C| == 17
    requires forall q :: q in P + C ==> InBounds(q)
    requires forall q :: InBounds(q) ==> At(b, q) == if q in P + C then Ship else Empty
    ensures Cells(b, Ship) == P + C
    ensures |Cells(b, Ship)| == 34
    ensures Resolved(b) == {}
  {
  }

  /** Two pairwise-disjoint fleets with no common cell form one pairwise-disjoint sequence. */
  lemma ConcatDisjoint(a: seq<PlacedShip>, c: seq<PlacedShip>)
    requires PairwiseDisjoint(a) && PairwiseDisjoint(c)
    requires Covered(a) !! Covered(c)
    ensures PairwiseDisjoint(a + c)
  {
    var s := a + c;
    forall i, j | 0 <= i < j < |s|
      ensures PosSet(s[i].positions) !! PosSet(s[j].positions)
    {
      if j < |a| {
        assert s[i] == a[i] && s[j] == a[j];
      } else if i >= |a| {
        assert s[i] == c[i - |a|] && s[j] == c[j - |a|];
      } else {
        assert s[i] == a[i] && s[j] == c[j - |a|];
        assert PosSet(s[i].positions) <= Covered(a);
        assert PosSet(s[j].positions) <= Covered(c);
      }
    }
  }

  /** `init()`: an empty board, no ships, `.player1` to move, no winner, then
      `setupShips`. */
  function NewGame(playerDraws: seq<seq<Draw>>, computerDraws: seq<seq<Draw>>): (r: Option<GameState>)
    requires DrawsFor(FleetSizes, playerDraws) && DrawsFor(FleetSizes, computerDraws)
    ensures r.Some? ==> Inv(r.value) && FreshLayout(r.value)
    ensures r.Some? ==> !r.value.gameOver && r.value.winner == None && r.value.currentPlayer == Player1
  {
    var r := SetupShips(GameState(EmptyBoard(), [], [], Player1, false, None), playerDraws, computerDraws);
    if r.Some? then (FreshIsInitial(r.value); r) else r
  }

  /** `resetGame`: the game is running again with no winner, `.player1` to move
      and a freshly placed layout in which nothing has been fired at. The
      previous state leaves no trace. */
  function ResetGame(g: GameState, playerDraws: seq<seq<Draw>>, computerDraws: seq<seq<Draw>>): (r: Option<GameState>)
    requires DrawsFor(FleetSizes, playerDraws) && DrawsFor(FleetSizes, computerDraws)
    ensures r.Some? ==> Inv(r.value) && FreshLayout(r.value)
    ensures r.Some? ==> !r.value.gameOver && r.value.winner == None && r.value.currentPlayer == Player1
    ensures r == NewGame(playerDraws, computerDraws)
  {
    var r := SetupShips(g.(gameOver := false, winner := None, currentPlayer := Player1), playerDraws, computerDraws);
    if r.Some? then (FreshIsInitial(r.value); r) else r
  }

  /** When the first draws of all ten ships lie on distinct cells, a new game
      (and so a reset) starts with every ship taken from its first draw. */
  lemma NewGameSucceeds(playerDraws: seq<seq<Draw>>, computerDraws: seq<seq<Draw>>)
    requires DrawsFor(FleetSizes, playerDraws) && DrawsFor(FleetSizes, computerDraws)
    requires FirstDrawsFit(EmptyBoard(), FleetSizes, playerDraws)
    requires FirstDrawsFit(EmptyBoard(), FleetSizes, computerDraws)
    requires forall i, j :: 0 <= i < |FleetSizes| && 0 <= j < |FleetSizes| ==>
      PosSet(Positions(FleetSizes[i], playerDraws[i][0])) !! PosSet(Positions(FleetSizes[j], computerDraws[j][0]))
    ensures NewGame(playerDraws, computerDraws).Some?
    ensures forall j :: 0 <= j < |FleetSizes| ==>
      NewGame(playerDraws, computerDraws).value.playerShips[j] ==
        PlacedShip(FleetSizes[j], Positions(FleetSizes[j], playerDraws[j][0]))
    ensures forall j :: 0 <= j < |FleetSizes| ==>
      NewGame(playerDraws, computerDraws).value.computerShips[j] ==
        PlacedShip(FleetSizes[j], Positions(FleetSizes[j], computerDraws[j][0]))
  {
    SetupShipsSucceeds(GameState(EmptyBoard(), [], [], Player1, false, None), playerDraws, computerDraws);
  }

  /** A fresh layout with the game running and `.player1` to move satisfies
      the invariant: no ship is sunk while every ship cell still reads `.ship`. */
  lemma FreshIsInitial(g: GameState)
    requires FreshLayout(g) && !g.gameOver && g.winner == None && g.currentPlayer == Player1
    ensures Inv(g)
  {
    NotSunkWhenUnhit(g.playerShips, g.board);
    NotSunkWhenUnhit(g.computerShips, g.board);
  }

  /** A standard fleet with no `.hit` cell on the board is not sunk. */
  lemma NotSunkWhenUnhit(ships: seq<PlacedShip>, b: Board)
    requires ValidBoard(b) && FleetInBounds(ships) && StandardFleet(ships)
    requires Cells(b, Hit) == {}
    ensures !FleetSunk(ships, b)
  {
    assert |ships[0].positions| > 0;
    var q := ships[0].positions[0];
    assert q !in Cells(b, Hit);
    assert !IsSunk(ships[0], b);
  }

  /** Every move keeps the invariant. */
  lemma MakeMovePreservesInv(g: GameState, x: int, y: int)
    requires Inv(g) && 0 <= x < Size && 0 <= y < Size
    ensures Inv(MakeMove(g, x, y))
  {
    var r := MakeMove(g, x, y);
    if Accepts(g, Pos(x, y)) {
      MoveKeepsConsistent(g, x, y);
      MoveKeepsOutcome(g, x, y);
    }
  }

  /** A move changes `.ship` to `.hit` or `.empty` to `.miss`, so the board still
      agrees with the fleets. */
  lemma MoveKeepsConsistent(g: GameState, x: int, y: int)
    requires WellFormed(g) && Consistent(g) && 0 <= x < Size && 0 <= y < Size
    ensures Consistent(MakeMove(g, x, y))
  {
    var r := MakeMove(g, x, y);
    if Accepts(g, Pos(x, y)) {
      ShotKeepsConsistent(g, r, Pos(x, y));
    }
  }

  /** Turning the unresolved cell `p` into `.hit` if it held a ship and `.miss`
      otherwise, with the fleets unchanged, keeps the board agreeing with them. */
  lemma ShotKeepsConsistent(g: GameState, r: GameState, p: Pos)
    requires WellFormed(g) && WellFormed(r) && Consistent(g) && InBounds(p)
    requires r.playerShips == g.playerShips && r.computerShips == g.computerShips
    requires At(g.board, p) == Empty || At(g.board, p) == Ship
    requires At(r.board, p) == if At(g.board, p) == Ship then Hit else Miss
    requires forall q :: InBounds(q) && q != p ==> At(r.board, q) == At(g.board, q)
    ensures Consistent(r)
  {
    assert ShipCells(r) == ShipCells(g);
  }

  /** After an accepted move the outcome again matches the fleets. */
  lemma MoveKeepsOutcome(g: GameState, x: int, y: int)
    requires WellFormed(g) && OutcomeInv(g) && 0 <= x < Size && 0 <= y < Size
    requires Accepts(g, Pos(x, y))
    ensures OutcomeInv(MakeMove(g, x, y))
  {
  }

  /** Every move, accepted or ignored, leaves the outcome matching the fleets. */
  lemma AnyMoveKeepsOutcome(g: GameState, x: int, y: int)
    requires WellFormed(g) && OutcomeInv(g) && 0 <= x < Size && 0 <= y < Size
    ensures OutcomeInv(MakeMove(g, x, y))
  {
    if Accepts(g, Pos(x, y)) {
      MoveKeepsOutcome(g, x, y);
    }
  }

  /** A sequence of moves, each applied with `makeMove`. */
  function Play(g: GameState, moves: seq<Pos>): (r: GameState)
    requires WellFormed(g)
    requires forall i :: 0 <= i < |moves| ==> InBounds(moves[i])
    ensures WellFormed(r)
    ensures r.playerShips == g.playerShips && r.computerShips == g.computerShips
    decreases |moves|
  {
    if |moves| == 0 then g
    else
      assert InBounds(moves[0]);
      Play(MakeMove(g, moves[0].x, moves[0].y), moves[1..])
  }

  /** Any sequence of moves keeps the invariant. */
  lemma PlayPreservesInv(g: GameState, moves: seq<Pos>)
    requires Inv(g)
    requires forall i :: 0 <= i < |moves| ==> InBounds(moves[i])
    ensures Inv(Play(g, moves))
  {
    PlayKeepsConsistent(g, moves);
    PlayKeepsOutcome(g, moves);
    PlayKeepsHumanTurn(g, moves);
  }

  /** Through any sequence of moves the board keeps agreeing with the fleets. */
  lemma {:induction false} PlayKeepsConsistent(g: GameState, moves: seq<Pos>)
    requires WellFormed(g) && Consistent(g)
    requires forall i :: 0 <= i < |moves| ==> InBounds(moves[i])
    ensures Consistent(Play(g, moves))
    decreases |moves|
  {
    if |moves| > 0 {
      var g' := MakeMove(g, moves[0].x, moves[0].y);
      MoveKeepsConsistent(g, moves[0].x, moves[0].y);
      PlayKeepsConsistent(g', moves[1..]);
    }
  }

  /** Through any sequence of moves the outcome keeps matching the fleets. */
  lemma {:induction false} PlayKeepsOutcome(g: GameState, moves: seq<Pos>)
    requires WellFormed(g) && OutcomeInv(g)
    requires forall i :: 0 <= i < |moves| ==> InBounds(moves[i])
    ensures OutcomeInv(Play(g, moves))
    decreases |moves|
  {
    if |moves| > 0 {
      var g' := MakeMove(g, moves[0].x, moves[0].y);
      AnyMoveKeepsOutcome(g, moves[0].x, moves[0].y);
      PlayKeepsOutcome(g', moves[1..]);
    }
  }

  /** Through any sequence of moves the turn stays with a human player. */
  lemma {:induction false} PlayKeepsHumanTurn(g: GameState, moves: seq<Pos>)
    requires WellFormed(g) && g.currentPlayer != Computer
    requires forall i :: 0 <= i < |moves| ==> InBounds(moves[i])
    ensures Play(g, moves).currentPlayer != Computer
    decreases |moves|
  {
    if |moves| > 0 {
      PlayKeepsHumanTurn(MakeMove(g, moves[0].x, moves[0].y), moves[1..]);
    }
  }

  /** Game over is terminal: no sequence of moves changes a finished game. */
  lemma {:induction false} GameOverIsTerminal(g: GameState, moves: seq<Pos>)
    requires WellFormed(g) && g.gameOver
    requires forall i :: 0 <= i < |moves| ==> InBounds(moves[i])
    ensures Play(g, moves) == g
    decreases |moves|
  {
    if |moves| > 0 {
      GameOverIsTerminal(g, moves[1..]);
    }
  }

  /** Resolved cells never revert: every cell fired at keeps its `.hit` or
      `.miss` through any sequence of moves, and each move resolves at most one
      more cell. */
  lemma {:induction false} ResolvedNeverReverts(g: GameState, moves: seq<Pos>)
    requires WellFormed(g)
    requires forall i :: 0 <= i < |moves| ==> InBounds(moves[i])
    ensures forall q :: q in Resolved(g.board) ==> At(Play(g, moves).board, q) == At(g.board, q)
    ensures Resolved(g.board) <= Resolved(Play(g, moves).board)
    ensures |Resolved(Play(g, moves).board)| <= |Resolved(g.board)| + |moves|
    decreases |moves|
  {
    if |moves| > 0 {
      var g' := MakeMove(g, moves[0].x, moves[0].y);
      ResolvedNeverReverts(g', moves[1..]);
    }
  }

  /** In a reachable state `.player2` is never declared the winner: the only
      labels are `.computer` and `.player1`. */
  lemma WinnerNeverPlayer2(g: GameState)
    requires Inv(g)
    ensures g.winner != Some(Player2)
    ensures g.winner.Some? <==> g.gameOver
  {
  }

  /** The winner label follows the sunk fleet, not the mover: whoever is to
      move, the shot at the last unhit cell of `playerShips` ends the game with
      `.computer` as the winner, and the turn stays where it was. */
  lemma LastPlayerShipCellHit(g: GameState, x: int, y: int)
    requires WellFormed(g) && 0 <= x < Size && 0 <= y < Size && !g.gameOver
    requires Pos(x, y) in Covered(g.playerShips) && At(g.board, Pos(x, y)) == Ship
    requires forall q :: q in Covered(g.playerShips) && q != Pos(x, y) ==> At(g.board, q) == Hit
    ensures MakeMove(g, x, y).gameOver && MakeMove(g, x, y).winner == Some(Computer)
    ensures MakeMove(g, x, y).currentPlayer == g.currentPlayer
  {
    var r := MakeMove(g, x, y);
    forall q | q in Covered(g.playerShips)
      ensures q in Cells(r.board, Hit)
    {
      var j :| 0 <= j < |g.playerShips| && q in g.playerShips[j].positions;
      assert InBounds(q);
    }
    FleetSunkIffAllHit(g.playerShips, r.board);
  }
}
