# Battleship rules engine in Dafny

This project models the rules engine of a two-player Battleship game for iOS: the `Game` class of `Battleship/GameLogic.swift`. It covers

- the 8×8 board of owner-less cells (`.empty`, `.ship`, `.hit`, `.miss`);
- random ship placement (`placeShips`, `setupShips`), for a fleet of sizes 2, 3, 3, 4, 5;
- move resolution (`makeMove`);
- win detection (`checkWinCondition`, with `Ship.isSunk`);
- turn alternation (`switchTurn`) and restarting (`init`, `resetGame`).

Every operation is a pure function over an immutable `GameState` record.

Random draws are parameters. A `Draw` is one pass of the `while !placed` loop: the orientation from `Bool.random()` and the two anchors from `Int.random`, each required to lie in the range `placeShips` samples from. Placing one ship consumes a finite sequence of draws and stops at the first accepted one. If the model runs out of draws it returns `None`; `placeShips` would keep drawing. `isSunk` takes the board as an argument instead of reading the shared game.

Modules:

- `Wrappers`: `Option`.
- `Grid`: cells, coordinates, the board, `Cells` and `Resolved` sets.
- `Placement`: draws, ship positions, stamping, the retry loop, fleets.
- `Game`: the state machine, its invariant, and the lemmas about sequences of moves.

Quirks of the code that the model keeps:

- The anchor range is `0..<(8 - size)`, which stops one cell short. Along its axis a ship ends at index 6 at the latest, so the corner (7, 7) never holds a ship (`Placement.AnchorStopsShort`, `Game.CornerNotCovered`).
- `.ship` cells carry no owner; both fleets share one board.
- The winner label follows which fleet is sunk, not who moved. A sunk `playerShips` is checked first and makes `.computer` the winner. A sunk `computerShips` makes `.player1` the winner. `.player2` is never declared the winner.
- `switchTurn` sends every player other than `.player1` to `.player1`. It never yields `.computer`, so the computer's move is never triggered.

The engine also:

- reports nothing when a move is ignored: a move on a finished game or on a `.hit`/`.miss` cell is a silent no-op;
- does not check whose turn it is before resolving a move;
- retries a ship's placement with no cap on the number of draws.

## Model

| member | source | states |
|---|---|---|
| Grid.EmptyBoard | Battleship/GameLogic.swift:47 | the board literal has the 8×8 shape and every cell reads `.empty` |
| Grid.Update | Battleship/GameLogic.swift:96-98 | a cell assignment sets the target cell and leaves every other cell of the 8×8 board unchanged |
| Grid.ResolveOneCell | Battleship/GameLogic.swift:95-99 | resolving an `.empty`/`.ship` cell to `.hit`/`.miss` adds exactly that cell to the resolved set, so its size grows by one |
| Placement.Positions | Battleship/GameLogic.swift:73-75 | a candidate has exactly `size` cells: a straight run from the anchor along one axis without repeats, all on the board when the draw is in range |
| Placement.AnchorStopsShort | Battleship/GameLogic.swift:70-71 | with the exclusive range `0..<(8 - size)` a ship's last cell along its axis is at index 6 at most, and no ship covers (7, 7) |
| Placement.Stamp | Battleship/GameLogic.swift:78-80 | after stamping, the listed cells read the new state; every other cell keeps its old one |
| Placement.TryPlace | Battleship/GameLogic.swift:77-84 | a candidate is accepted if and only if all its cells are `.empty`; on acceptance exactly those cells become `.ship`; on rejection there is no new board |
| Placement.PlaceShip | Battleship/GameLogic.swift:67-85 | the retry loop stops at the first accepted draw, every earlier draw was rejected, and the ship built from it is stamped; it fails only when every draw is rejected |
| Placement.PlaceShips | Battleship/GameLogic.swift:62-89 | the fleet has one ship per size in order, each from one of its draws, on the board and pairwise disjoint; together they cover `Sum(sizes)` cells, which were `.empty` before and are exactly the cells that change, to `.ship`; every other cell keeps its state |
| Placement.PlaceShipsInOrder | Battleship/GameLogic.swift:66-86 | ship `j` of a placed fleet comes from the first of its draws whose cells are `.empty` once ships `0..j-1` are stamped, which is the draw the retry loop accepts |
| Placement.PlaceShipsSucceeds | Battleship/GameLogic.swift:66-86 | when the first draw of every ship lies on empty cells and no two first draws overlap, placement succeeds and every ship comes from its first draw |
| Placement.DistinctCard | Battleship/GameLogic.swift:73-75 | a ship's positions, having no repeats, cover exactly `size` distinct cells |
| Game.IsSunkIffAllHit | Battleship/GameLogic.swift:23-25 | a ship is sunk if and only if every one of its cells reads `.hit` |
| Game.FleetSunk | Battleship/GameLogic.swift:118-121 | `allSatisfy` over an empty fleet holds, so an empty fleet counts as sunk |
| Game.FleetSunkIffAllHit | Battleship/GameLogic.swift:118-121 | `allSatisfy { $0.isSunk }` over a fleet holds if and only if every cell of the fleet reads `.hit` |
| Game.CheckWinCondition | Battleship/GameLogic.swift:117-125 | a sunk player fleet ends the game with `.computer` as winner; else a sunk computer fleet ends it with `.player1`; else the state is unchanged |
| Game.SwitchTurn | Battleship/GameLogic.swift:112-114 | the next player is `.player2` exactly when the current one is `.player1`, and it is never `.computer` |
| Game.SwitchTurnAlternates | Battleship/GameLogic.swift:112-114 | between the two human players the turn always changes, and two switches restore it |
| Game.MakeMove | Battleship/GameLogic.swift:92-109 | a move on a finished game or a resolved cell changes nothing; otherwise `.ship` becomes `.hit` and `.empty` becomes `.miss`; no other cell changes; the resolved set grows by exactly the target; game over and winner follow the fleets on the new board; the turn passes on only if the game did not end |
| Game.WinnerIgnoresMover | Battleship/GameLogic.swift:117-125 | whose turn it was has no effect on whether a move ends the game or on the winner it names |
| Game.LastPlayerShipCellHit | Battleship/GameLogic.swift:118-120 | whoever moves, hitting the last unhit cell of the player's fleet ends the game with `.computer` as winner and keeps the turn |
| Game.SetupShips | Battleship/GameLogic.swift:54-59 | after setup both fleets are standard (sizes 2,3,3,4,5 in order), cover 17 cells each and are pairwise disjoint; exactly their 34 cells read `.ship`; nothing is hit or missed; (7, 7) is empty; each player ship is the first of its draws that fits on the cleared board beside the ones before it, and each computer ship the first that fits beside the whole player fleet and the computer ships before it; turn and outcome are untouched |
| Game.SetupShipsSucceeds | Battleship/GameLogic.swift:54-59 | when the first draws of all ten ships lie on distinct cells, setup succeeds and takes every ship of both fleets from its first draw |
| Game.CornerNotCovered | Battleship/GameLogic.swift:69-75 | no ship built from in-range draws covers the corner (7, 7) |
| Game.NewGame | Battleship/GameLogic.swift:46-51 | a new game starts running with no winner and `.player1` to move, on a fresh layout that satisfies the game invariant |
| Game.NewGameSucceeds | Battleship/GameLogic.swift:46-51 | when the first draws of all ten ships lie on distinct cells, a new game is created and every ship of both fleets comes from its first draw |
| Game.ResetGame | Battleship/GameLogic.swift:146-151 | after a reset the game is running, there is no winner, `.player1` is to move, and the layout is fresh with no `.hit`/`.miss` cell; the result does not depend on the previous state |
| Game.MakeMovePreservesInv | Battleship/GameLogic.swift:92-125 | every move keeps the invariant: standard disjoint fleets agree with the board, the turn is with a human player, the game is over exactly when a fleet is sunk, and the winner is named after the sunk fleet |
| Game.PlayPreservesInv | Battleship/GameLogic.swift:103-114 | starting from a reachable state, any sequence of moves keeps the invariant; in particular `currentPlayer` stays in {`.player1`, `.player2`} |
| Game.GameOverIsTerminal | Battleship/GameLogic.swift:93 | once the game is over, no sequence of moves changes any part of the state |
| Game.ResolvedNeverReverts | Battleship/GameLogic.swift:93-99 | through any sequence of moves a `.hit` or `.miss` cell keeps its state, and each move resolves at most one more cell |
| Game.WinnerNeverPlayer2 | Battleship/GameLogic.swift:117-125 | in a reachable state a winner is set exactly when the game is over, and it is never `.player2` |

## Left out

- Random number generation: `Bool.random()` and `Int.random` become explicit `Draw` parameters.
- Placement liveness: with a finite supply of draws the model reports `None` where `placeShips` would keep drawing. Nothing is claimed about whether its `while !placed` loop terminates.
- `performComputerMove` (Battleship/GameLogic.swift:128-143): it is asynchronous, delayed by one second and randomly targeted. It is also unreachable, because `switchTurn` never yields `.computer` (`Game.SwitchTurn`, `Game.MakeMove`).
- `ObservableObject`/`@Published` observation, the `Game.shared` singleton, and the published `ships` array. The array is only cleared and never filled.
- Out-of-range coordinates in `makeMove`: `makeMove` indexes the board without a bounds check and would crash. `Game.MakeMove` requires `0 <= x, y < 8` instead.
- Battleship/GameView.swift (rendering and tap handling) is not part of this model. Its fog-of-war colouring matches an owner on `.ship`, which the owner-less `CellState` does not have, so there is no visibility rule in the logic to model.
- Placement.PlaceShips: a `None` result is characterised exactly only for a single ship (`Placement.PlaceShip`). For a whole fleet the model pins down every successful result and gives a sufficient condition for success (`Placement.PlaceShipsSucceeds`, `Game.SetupShipsSucceeds`), but does not state exactly which draw supplies run out. A `None` only stands for a supply too short, since `placeShips` keeps drawing.
