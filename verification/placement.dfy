/** Random ship placement (`placeShips`): each random draw becomes an explicit
    `Draw`, and the `while !placed` retry loop consumes a finite sequence of
    them, returning `None` when every draw it was given is rejected. */
module Placement {
  import opened Wrappers
  import opened Grid

  /** Ship sizes of one fleet, in placement order. */
  const FleetSizes: seq<nat> := [2, 3, 3, 4, 5]

  /** One pass of the retry loop: `Bool.random()` for the orientation and the
      two `Int.random` anchor coordinates. A horizontal ship grows along `x`. */
  datatype Draw = Draw(horizontal: bool, x: int, y: int)

  /** The ranges `placeShips` samples from: `0..<(8 - size)` along the ship's axis
      and `0..<8` across it. The upper bound is exclusive, so the anchor never
      reaches `8 - size`. */
  predicate DrawInRange(size: nat, d: Draw) {
    if d.horizontal then 0 <= d.x < Size - size && 0 <= d.y < Size
    else 0 <= d.x < Size && 0 <= d.y < Size - size
  }

  /** The cell after `p` along the ship's axis. */
  function Next(p: Pos, horizontal: bool): Pos {
    if horizontal then Pos(p.x + 1, p.y) else Pos(p.x, p.y + 1)
  }

  predicate Distinct(s: seq<Pos>) {
    forall i, j :: 0 <= i < j < |s| ==> s[i] != s[j]
  }

  function PosSet(ps: seq<Pos>): (s: set<Pos>)
    ensures forall q :: q in s <==> q in ps
  {
    set q | q in ps
  }

  /** A sequence without repetitions has as many distinct elements as entries. */
  lemma {:induction false} DistinctCard(ps: seq<Pos>)
    requires Distinct(ps)
    ensures |PosSet(ps)| == |ps|
  {
    if |ps| > 0 {
      DistinctCard(ps[1..]);
      assert PosSet(ps) == {ps[0]} + PosSet(ps[1..]);
      assert ps[0] !in PosSet(ps[1..]);
    }
  }

  /** The `size` cells `placeShips` builds from an anchor: a straight run that
      starts at the anchor, steps one cell at a time along the chosen axis and
      never repeats a cell. For a draw in range every cell is on the board. */
  function Positions(size: nat, d: Draw): (ps: seq<Pos>)
    ensures |ps| == size
    ensures size > 0 ==> ps[0] == Pos(d.x, d.y)
    ensures forall i :: 0 <= i < |ps| - 1 ==> ps[i + 1] == Next(ps[i], d.horizontal)
    ensures Distinct(ps)
    ensures DrawInRange(size, d) ==> forall i :: 0 <= i < |ps| ==> InBounds(ps[i])
  {
    seq(size, i => Pos(d.x + (if d.horizontal then i else 0), d.y + (if d.horizontal then 0 else i)))
  }

  /** The anchor range stops one short: along its axis a ship ends at index 6 at
      the latest, so the corner cell (7, 7) is never part of any ship. */
  lemma AnchorStopsShort(size: nat, d: Draw, i: int)
    requires DrawInRange(size, d) && 0 <= i < size
    ensures d.horizontal ==> Positions(size, d)[i].x <= Size - 2
    ensures !d.horizontal ==> Positions(size, d)[i].y <= Size - 2
    ensures Positions(size, d)[i] != Pos(Size - 1, Size - 1)
  {
  }

  /** `struct Ship`: a size and its positions in placement order. */
  datatype PlacedShip = PlacedShip(size: nat, positions: seq<Pos>)

  predicate ShipInBounds(s: PlacedShip) {
    forall i :: 0 <= i < |s.positions| ==> InBounds(s.positions[i])
  }

  predicate FleetInBounds(ships: seq<PlacedShip>) {
    forall j :: 0 <= j < |ships| ==> ShipInBounds(ships[j])
  }

  /** The acceptance test of one draw: every computed cell reads `.empty`. */
  predicate AllEmpty(b: Board, ps: seq<Pos>)
    requires ValidBoard(b)
    requires forall i :: 0 <= i < |ps| ==> InBounds(ps[i])
  {
    forall i :: 0 <= i < |ps| ==> At(b, ps[i]) == Empty
  }

  /** `for pos in positions { board[pos.x][pos.y] = c }`: the listed cells
      read `c` afterwards and every other cell keeps its old state. */
  function Stamp(b: Board, ps: seq<Pos>, c: CellState): (r: Board)
    requires ValidBoard(b)
    requires forall i :: 0 <= i < |ps| ==> InBounds(ps[i])
    ensures ValidBoard(r)
    ensures forall q :: InBounds(q) ==> At(r, q) == if q in ps then c else At(b, q)
    decreases |ps|
  {
    if |ps| == 0 then b
    else
      var r := Stamp(Update(b, ps[0], c), ps[1..], c);
      assert forall q :: q in ps <==> q == ps[0] || q in ps[1..];
      r
  }

  /** One pass of the retry loop body: the candidate is accepted exactly when all
      its cells are empty; then exactly those cells become `.ship`. A rejected
      candidate leaves the board as it was (`None`). */
  function TryPlace(b: Board, size: nat, d: Draw): (r: Option<Board>)
    requires ValidBoard(b) && DrawInRange(size, d)
    ensures r.Some? <==> AllEmpty(b, Positions(size, d))
    ensures r.Some? ==> ValidBoard(r.value)
    ensures r.Some? ==> forall q :: InBounds(q) ==>
      At(r.value, q) == if q in Positions(size, d) then Ship else At(b, q)
  {
    var ps := Positions(size, d);
    if AllEmpty(b, ps) then Some(Stamp(b, ps, Ship)) else None
  }

  /** The outcome of placing one ship: the record appended to the fleet, the
      stamped board and how many draws the loop consumed. */
  datatype Placed = Placed(ship: PlacedShip, board: Board, used: nat)

  /** `while !placed { … }` for one ship, fed with the draws `draws`. The loop
      stops at the first accepted draw; every earlier draw was rejected. When no
      draw is accepted the result is `None` (`placeShips` would keep drawing). */
  function PlaceShip(b: Board, size: nat, draws: seq<Draw>): (r: Option<Placed>)
    requires ValidBoard(b)
    requires forall k :: 0 <= k < |draws| ==> DrawInRange(size, draws[k])
    ensures r.None? <==> forall k :: 0 <= k < |draws| ==> !AllEmpty(b, Positions(size, draws[k]))
    ensures r.Some? ==> 0 < r.value.used <= |draws|
    ensures r.Some? ==> forall k :: 0 <= k < r.value.used - 1 ==> !AllEmpty(b, Positions(size, draws[k]))
    ensures r.Some? ==> r.value.ship == PlacedShip(size, Positions(size, draws[r.value.used - 1]))
    ensures r.Some? ==> AllEmpty(b, r.value.ship.positions)
    ensures r.Some? ==> ValidBoard(r.value.board)
    ensures r.Some? ==> forall q :: InBounds(q) ==>
      At(r.value.board, q) == if q in r.value.ship.positions then Ship else At(b, q)
    decreases |draws|
  {
    if |draws| == 0 then None
    else
      match TryPlace(b, size, draws[0])
      case Some(b') => Some(Placed(PlacedShip(size, Positions(size, draws[0])), b', 1))
      case None =>
        var rest := PlaceShip(b, size, draws[1..]);
        FirstRejected(b, size, draws, if rest.Some? then rest.value.used - 1 else |draws| - 1);
        match rest
        case None => None
        case Some(p) => Some(p.(used := p.used + 1))
  }

  /** A rejected first draw followed by `n` rejected draws of the rest makes
      `n + 1` rejected draws of the whole supply. */
  lemma FirstRejected(b: Board, size: nat, draws: seq<Draw>, n: int)
    requires ValidBoard(b) && 0 <= n < |draws|
    requires forall k :: 0 <= k < |draws| ==> DrawInRange(size, draws[k])
    requires !AllEmpty(b, Positions(size, draws[0]))
    requires forall k :: 0 <= k < n ==> !AllEmpty(b, Positions(size, draws[1..][k]))
    ensures forall k :: 0 <= k < n + 1 ==> !AllEmpty(b, Positions(size, draws[k]))
  {
    forall k | 0 < k < n + 1
      ensures !AllEmpty(b, Positions(size, draws[k]))
    {
      assert draws[k] == draws[1..][k - 1];
    }
  }

  /** Every cell of a fleet. */
  function Covered(ships: seq<PlacedShip>): (s: set<Pos>)
    ensures forall q :: q in s <==> exists j :: 0 <= j < |ships| && q in ships[j].positions
    decreases |ships|
  {
    if |ships| == 0 then {}
    else
      var s := PosSet(ships[0].positions) + Covered(ships[1..]);
      assert forall j :: 1 <= j < |ships| ==> ships[j] == ships[1..][j - 1];
      s
  }

  function Sum(sizes: seq<nat>): nat {
    if |sizes| == 0 then 0 else sizes[0] + Sum(sizes[1..])
  }

  /** No two ships of the sequence share a cell. */
  predicate PairwiseDisjoint(ships: seq<PlacedShip>) {
    forall i, j :: 0 <= i < j < |ships| ==> PosSet(ships[i].positions) !! PosSet(ships[j].positions)
  }

  /** `draws[j]` is the supply of in-range draws for the `j`-th ship. */
  predicate DrawsFor(sizes: seq<nat>, draws: seq<seq<Draw>>) {
    |draws| == |sizes| &&
    forall j, k :: 0 <= j < |sizes| && 0 <= k < |draws[j]| ==> DrawInRange(sizes[j], draws[j][k])
  }

  /** A fleet placed on a board. */
  datatype FleetPlacement = FleetPlacement(ships: seq<PlacedShip>, board: Board)

  /** `s` is the ship some draw of `ds` produces for `size`. */
  ghost predicate FromDraws(s: PlacedShip, size: nat, ds: seq<Draw>) {
    exists k :: 0 <= k < |ds| && s == PlacedShip(size, Positions(size, ds[k]))
  }

  /** Ship `j` has size `sizes[j]` and the cells of one of its own draws. */
  ghost predicate ShipsFromDraws(ships: seq<PlacedShip>, sizes: seq<nat>, draws: seq<seq<Draw>>) {
    |ships| == |sizes| == |draws| &&
    forall j :: 0 <= j < |ships| ==> FromDraws(ships[j], sizes[j], draws[j])
  }

  /** `after` is `before` with the fleet's cells, all `.empty` in `before`,
      turned into `.ship`; every other cell keeps its state. */
  ghost predicate StampedOn(before: Board, ships: seq<PlacedShip>, after: Board)
    requires ValidBoard(before)
  {
    && ValidBoard(after)
    && (forall q :: q in Covered(ships) ==> InBounds(q) && At(before, q) == Empty)
    && (forall q :: InBounds(q) ==> At(after, q) == if q in Covered(ships) then Ship else At(before, q))
  }

  /** The cells `ps` are free on `b` once the cells `taken` have been stamped
      `.ship` as well: none of them is taken and each reads `.empty`. */
  predicate FreeOn(b: Board, taken: set<Pos>, ps: seq<Pos>)
    requires ValidBoard(b)
    requires forall i :: 0 <= i < |ps| ==> InBounds(ps[i])
  {
    forall i :: 0 <= i < |ps| ==> ps[i] !in taken && At(b, ps[i]) == Empty
  }

  /** `s` is the ship the retry loop picks from `ds` on `b` with `taken`
      stamped: the first draw whose cells are all free. */
  ghost predicate FirstAccepted(b: Board, taken: set<Pos>, size: nat, ds: seq<Draw>, s: PlacedShip)
    requires ValidBoard(b)
    requires forall k :: 0 <= k < |ds| ==> DrawInRange(size, ds[k])
  {
    exists k :: 0 <= k < |ds| && s == PlacedShip(size, Positions(size, ds[k])) &&
      FreeOn(b, taken, Positions(size, ds[k])) &&
      forall k' :: 0 <= k' < k ==> !FreeOn(b, taken, Positions(size, ds[k']))
  }

  /** The ships were placed one after the other on `b` with the cells `base`
      already taken: ship `j` is the first draw of `draws[j]` whose cells are
      free once `base` and the cells of ships `0..j-1` are stamped. */
  ghost predicate PlacedInOrder(b: Board, base: set<Pos>, ships: seq<PlacedShip>, sizes: seq<nat>, draws: seq<seq<Draw>>)
    requires ValidBoard(b) && DrawsFor(sizes, draws)
  {
    |ships| == |sizes| &&
    forall j :: 0 <= j < |ships| ==> FirstAccepted(b, base + Covered(ships[..j]), sizes[j], draws[j], ships[j])
  }

  /** Everything `placeShips` promises about a fleet it returns. */
  ghost predicate PlacedFleet(before: Board, sizes: seq<nat>, draws: seq<seq<Draw>>, f: FleetPlacement)
    requires ValidBoard(before)
  {
    && ShipsFromDraws(f.ships, sizes, draws)
    && FleetInBounds(f.ships)
    && PairwiseDisjoint(f.ships)
    && |Covered(f.ships)| == Sum(sizes)
    && StampedOn(before, f.ships, f.board)
  }

  /** `for size in shipSizes { … }`: ships are placed in order, each one only on
      cells that were empty in the board left by the ones before it. The fleet
      has one ship per size, in order, each built from one of its draws (the
      first that fits beside the ships before it, by `PlaceShipsInOrder`); the
      ships are on the board and pairwise disjoint and cover `Sum(sizes)`
      cells, which were `.empty` before and are exactly the cells that change,
      to `.ship`; every other cell keeps its state. */
  function PlaceShips(b: Board, sizes: seq<nat>, draws: seq<seq<Draw>>): (r: Option<FleetPlacement>)
    requires ValidBoard(b) && DrawsFor(sizes, draws)
    ensures r.Some? ==> PlacedFleet(b, sizes, draws, r.value)
    decreases |sizes|
  {
    if |sizes| == 0 then Some(FleetPlacement([], b))
    else
      match PlaceShip(b, sizes[0], draws[0])
      case None => None
      case Some(p) =>
        match PlaceShips(p.board, sizes[1..], draws[1..])
        case None => None
        case Some(rest) =>
          PlaceShipsStep(b, sizes, draws, p, rest);
          Some(FleetPlacement([p.ship] + rest.ships, rest.board))
  }

  /** The inductive step of `PlaceShips`: putting the first ship in front of the
      rest of the fleet keeps every fleet property. */
  lemma PlaceShipsStep(b: Board, sizes: seq<nat>, draws: seq<seq<Draw>>, p: Placed, rest: FleetPlacement)
    requires ValidBoard(b) && DrawsFor(sizes, draws) && |sizes| > 0
    requires PlaceShip(b, sizes[0], draws[0]) == Some(p)
    requires PlacedFleet(p.board, sizes[1..], draws[1..], rest)
    ensures PlacedFleet(b, sizes, draws, FleetPlacement([p.ship] + rest.ships, rest.board))
  {
    assert AllEmpty(b, p.ship.positions);
    ConsFleet(b, p, sizes, draws, rest);
  }

  /** The fleet properties of `[p.ship] + rest`, from what placing the first
      ship guarantees and the properties of the rest. */
  lemma ConsFleet(b: Board, p: Placed, sizes: seq<nat>, draws: seq<seq<Draw>>, rest: FleetPlacement)
    requires ValidBoard(b) && DrawsFor(sizes, draws) && |sizes| > 0
    requires 0 < p.used <= |draws[0]| && p.ship == PlacedShip(sizes[0], Positions(sizes[0], draws[0][p.used - 1]))
    requires forall q :: q in p.ship.positions ==> InBounds(q) && At(b, q) == Empty
    requires ValidBoard(p.board)
    requires forall q :: InBounds(q) ==> At(p.board, q) == if q in p.ship.positions then Ship else At(b, q)
    requires PlacedFleet(p.board, sizes[1..], draws[1..], rest)
    ensures PlacedFleet(b, sizes, draws, FleetPlacement([p.ship] + rest.ships, rest.board))
  {
    StepStamped(b, p.ship, p.board, rest.ships, rest.board);
    StepCount(p.ship, rest.ships, sizes);
    StepOrigin(sizes, draws, p, rest.ships);
    StepPairwise(p.ship, rest.ships);
    StepInBounds(p.ship, rest.ships);
  }

  /** A ship of `sizes[0]` distinct cells, disjoint from a rest covering
      `Sum(sizes[1..])` cells, brings the count to `Sum(sizes)`. */
  lemma StepCount(s: PlacedShip, rest: seq<PlacedShip>, sizes: seq<nat>)
    requires |sizes| > 0 && |s.positions| == sizes[0] && Distinct(s.positions)
    requires |Covered(rest)| == Sum(sizes[1..])
    requires PosSet(s.positions) !! Covered(rest)
    requires Covered([s] + rest) == PosSet(s.positions) + Covered(rest)
    ensures |Covered([s] + rest)| == Sum(sizes)
  {
    DistinctCard(s.positions);
  }

  lemma StepInBounds(s: PlacedShip, rest: seq<PlacedShip>)
    requires ShipInBounds(s) && FleetInBounds(rest)
    ensures FleetInBounds([s] + rest)
  {
    var ships := [s] + rest;
    forall j | 0 <= j < |ships|
      ensures ShipInBounds(ships[j])
    {
      if j > 0 {
        assert ships[j] == rest[j - 1];
      }
    }
  }

  /** Stamping one ship on empty cells and then the rest of the fleet stamps the
      whole fleet; the rest cannot overlap the first ship, whose cells it found
      already reading `.ship`. */
  lemma StepStamped(b: Board, s: PlacedShip, mid: Board, rest: seq<PlacedShip>, after: Board)
    requires ValidBoard(b) && ValidBoard(mid)
    requires forall q :: q in s.positions ==> InBounds(q) && At(b, q) == Empty
    requires forall q :: InBounds(q) ==> At(mid, q) == if q in s.positions then Ship else At(b, q)
    requires StampedOn(mid, rest, after)
    ensures PosSet(s.positions) !! Covered(rest)
    ensures Covered([s] + rest) == PosSet(s.positions) + Covered(rest)
    ensures StampedOn(b, [s] + rest, after)
  {
    var ships := [s] + rest;
    assert ships[1..] == rest;
    forall q | q in s.positions
      ensures q !in Covered(rest)
    {
      assert At(mid, q) == Ship;
    }
  }

  lemma StepOrigin(sizes: seq<nat>, draws: seq<seq<Draw>>, p: Placed, rest: seq<PlacedShip>)
    requires |sizes| > 0 && |draws| == |sizes|
    requires 0 < p.used <= |draws[0]| && p.ship == PlacedShip(sizes[0], Positions(sizes[0], draws[0][p.used - 1]))
    requires ShipsFromDraws(rest, sizes[1..], draws[1..])
    ensures ShipsFromDraws([p.ship] + rest, sizes, draws)
  {
    var ships := [p.ship] + rest;
    forall j | 0 <= j < |ships|
      ensures FromDraws(ships[j], sizes[j], draws[j])
    {
      if j == 0 {
        assert ships[0] == PlacedShip(sizes[0], Positions(sizes[0], draws[0][p.used - 1]));
      } else {
        assert ships[j] == rest[j - 1] && FromDraws(rest[j - 1], sizes[1..][j - 1], draws[1..][j - 1]);
      }
    }
  }

  lemma StepPairwise(s: PlacedShip, rest: seq<PlacedShip>)
    requires PairwiseDisjoint(rest)
    requires PosSet(s.positions) !! Covered(rest)
    ensures PairwiseDisjoint([s] + rest)
  {
    var ships := [s] + rest;
    forall i, j | 0 <= i < j < |ships|
      ensures PosSet(ships[i].positions) !! PosSet(ships[j].positions)
    {
      assert ships[j] == rest[j - 1];
      if i == 0 {
        assert PosSet(ships[j].positions) <= Covered(rest);
      } else {
        assert ships[i] == rest[i - 1];
      }
    }
  }

  /** With no extra cells taken, a cell is free exactly when it reads `.empty`. */
  lemma FreeOnNothing(b: Board, ps: seq<Pos>)
    requires ValidBoard(b)
    requires forall i :: 0 <= i < |ps| ==> InBounds(ps[i])
    ensures FreeOn(b, {}, ps) <==> AllEmpty(b, ps)
  {
  }

  /** Stamping the cells `S` and then taking `taken` frees the same cells as
      taking `S + taken` on the board before the stamp. */
  lemma FreeOnStamped(b: Board, mid: Board, S: set<Pos>, taken: set<Pos>, ps: seq<Pos>)
    requires ValidBoard(b) && ValidBoard(mid)
    requires forall q :: InBounds(q) ==> At(mid, q) == if q in S then Ship else At(b, q)
    requires forall i :: 0 <= i < |ps| ==> InBounds(ps[i])
    ensures FreeOn(mid, taken, ps) <==> FreeOn(b, S + taken, ps)
  {
    if FreeOn(mid, taken, ps) {
      forall i | 0 <= i < |ps|
        ensures ps[i] !in S + taken && At(b, ps[i]) == Empty
      {
        assert At(mid, ps[i]) == Empty;
      }
    }
  }

  /** The first accepted draw on a stamped board is the first accepted draw on
      the board before the stamp with the stamped cells taken. */
  lemma FirstAcceptedStamped(b: Board, mid: Board, S: set<Pos>, taken: set<Pos>, size: nat, ds: seq<Draw>, s: PlacedShip)
    requires ValidBoard(b) && ValidBoard(mid)
    requires forall q :: InBounds(q) ==> At(mid, q) == if q in S then Ship else At(b, q)
    requires forall k :: 0 <= k < |ds| ==> DrawInRange(size, ds[k])
    requires FirstAccepted(mid, taken, size, ds, s)
    ensures FirstAccepted(b, S + taken, size, ds, s)
  {
    var k :| 0 <= k < |ds| && s == PlacedShip(size, Positions(size, ds[k])) &&
      FreeOn(mid, taken, Positions(size, ds[k])) &&
      forall k' :: 0 <= k' < k ==> !FreeOn(mid, taken, Positions(size, ds[k']));
    FreeOnStamped(b, mid, S, taken, Positions(size, ds[k]));
    forall k' | 0 <= k' < k
      ensures !FreeOn(b, S + taken, Positions(size, ds[k']))
    {
      FreeOnStamped(b, mid, S, taken, Positions(size, ds[k']));
    }
  }

  /** A fleet placed in order on a stamped board is placed in order on the
      board before the stamp, with the stamped cells added to those taken. */
  lemma InOrderStamped(b: Board, mid: Board, S: set<Pos>, base: set<Pos>,
                       ships: seq<PlacedShip>, sizes: seq<nat>, draws: seq<seq<Draw>>)
    requires ValidBoard(b) && ValidBoard(mid) && DrawsFor(sizes, draws)
    requires forall q :: InBounds(q) ==> At(mid, q) == if q in S then Ship else At(b, q)
    requires PlacedInOrder(mid, base, ships, sizes, draws)
    ensures PlacedInOrder(b, S + base, ships, sizes, draws)
  {
    forall j | 0 <= j < |ships|
      ensures FirstAccepted(b, (S + base) + Covered(ships[..j]), sizes[j], draws[j], ships[j])
    {
      FirstAcceptedStamped(b, mid, S, base + Covered(ships[..j]), sizes[j], draws[j], ships[j]);
      assert S + (base + Covered(ships[..j])) == (S + base) + Covered(ships[..j]);
    }
  }

  /** The fleet `PlaceShips` returns was placed in order: ship `j` is the first
      draw of `draws[j]` whose cells are empty once ships `0..j-1` are stamped. */
  lemma {:induction false} PlaceShipsInOrder(b: Board, sizes: seq<nat>, draws: seq<seq<Draw>>)
    requires ValidBoard(b) && DrawsFor(sizes, draws)
    requires PlaceShips(b, sizes, draws).Some?
    ensures PlacedInOrder(b, {}, PlaceShips(b, sizes, draws).value.ships, sizes, draws)
    decreases |sizes|
  {
    if |sizes| > 0 {
      var p := PlaceShip(b, sizes[0], draws[0]).value;
      var rest := PlaceShips(p.board, sizes[1..], draws[1..]).value;
      PlaceShipsInOrder(p.board, sizes[1..], draws[1..]);
      StepInOrder(b, sizes, draws, p, rest.ships);
      assert PlaceShips(b, sizes, draws).value.ships == [p.ship] + rest.ships;
    }
  }

  /** The first ship is the first accepted draw on `b`; every later ship was
      first accepted on the board the first ship left, which is `b` with the
      first ship's cells taken. */
  lemma StepInOrder(b: Board, sizes: seq<nat>, draws: seq<seq<Draw>>, p: Placed, rest: seq<PlacedShip>)
    requires ValidBoard(b) && DrawsFor(sizes, draws) && |sizes| > 0
    requires PlaceShip(b, sizes[0], draws[0]) == Some(p)
    requires PlacedInOrder(p.board, {}, rest, sizes[1..], draws[1..])
    ensures PlacedInOrder(b, {}, [p.ship] + rest, sizes, draws)
  {
    var S := PosSet(p.ship.positions);
    InOrderStamped(b, p.board, S, {}, rest, sizes[1..], draws[1..]);
    FirstShipAccepted(b, sizes[0], draws[0], p);
    ConsInOrder(b, S, p.ship, rest, sizes, draws);
  }

  /** A ship first accepted on `b`, followed by a fleet placed in order with its
      cells taken, is a fleet placed in order. */
  lemma ConsInOrder(b: Board, S: set<Pos>, s: PlacedShip, rest: seq<PlacedShip>, sizes: seq<nat>, draws: seq<seq<Draw>>)
    requires ValidBoard(b) && DrawsFor(sizes, draws) && |sizes| > 0
    requires S == PosSet(s.positions)
    requires FirstAccepted(b, {}, sizes[0], draws[0], s)
    requires PlacedInOrder(b, S + {}, rest, sizes[1..], draws[1..])
    ensures PlacedInOrder(b, {}, [s] + rest, sizes, draws)
  {
    var ships := [s] + rest;
    forall j | 0 <= j < |ships|
      ensures FirstAccepted(b, {} + Covered(ships[..j]), sizes[j], draws[j], ships[j])
    {
      if j == 0 {
        assert {} + Covered(ships[..0]) == {};
      } else {
        LaterShipAccepted(b, S, s, rest, sizes, draws, j);
      }
    }
  }

  /** The ship `PlaceShip` returns is the first accepted draw on `b`. */
  lemma FirstShipAccepted(b: Board, size: nat, ds: seq<Draw>, p: Placed)
    requires ValidBoard(b)
    requires forall k :: 0 <= k < |ds| ==> DrawInRange(size, ds[k])
    requires PlaceShip(b, size, ds) == Some(p)
    ensures FirstAccepted(b, {}, size, ds, p.ship)
  {
    var k := p.used - 1;
    FreeOnNothing(b, p.ship.positions);
    forall k' | 0 <= k' < k
      ensures !FreeOn(b, {}, Positions(size, ds[k']))
    {
      FreeOnNothing(b, Positions(size, ds[k']));
    }
  }

  /** Ship `j > 0` of `[s] + rest` keeps the acceptance it had in `rest` once
      the cells `S` of `s` count as taken. */
  lemma LaterShipAccepted(b: Board, S: set<Pos>, s: PlacedShip, rest: seq<PlacedShip>,
                          sizes: seq<nat>, draws: seq<seq<Draw>>, j: int)
    requires ValidBoard(b) && DrawsFor(sizes, draws) && |sizes| > 0
    requires S == PosSet(s.positions) && 0 < j <= |rest| && |rest| == |sizes| - 1
    requires PlacedInOrder(b, S + {}, rest, sizes[1..], draws[1..])
    ensures FirstAccepted(b, {} + Covered(([s] + rest)[..j]), sizes[j], draws[j], ([s] + rest)[j])
  {
    var ships := [s] + rest;
    assert ships[j] == rest[j - 1] && sizes[j] == sizes[1..][j - 1] && draws[j] == draws[1..][j - 1];
    var taken := (S + {}) + Covered(rest[..j - 1]);
    assert FirstAccepted(b, taken, sizes[j], draws[j], ships[j]);
    CoveredConsPrefix(s, rest, j);
    assert {} + Covered(ships[..j]) == taken;
  }

  /** The first `j` ships of `[s] + rest` cover the cells of `s` and of the
      first `j - 1` ships of `rest`. */
  lemma CoveredConsPrefix(s: PlacedShip, rest: seq<PlacedShip>, j: int)
    requires 0 < j <= |rest| + 1
    ensures Covered(([s] + rest)[..j]) == PosSet(s.positions) + Covered(rest[..j - 1])
  {
    var ships := [s] + rest;
    assert ships[..j][0] == s;
    assert ships[..j][1..] == rest[..j - 1];
  }

  /** The first draw of every ship lies on empty cells and no two of them overlap. */
  predicate FirstDrawsFit(b: Board, sizes: seq<nat>, draws: seq<seq<Draw>>)
    requires ValidBoard(b) && DrawsFor(sizes, draws)
  {
    && (forall j :: 0 <= j < |draws| ==> |draws[j]| > 0)
    && (forall j :: 0 <= j < |sizes| ==> AllEmpty(b, Positions(sizes[j], draws[j][0])))
    && (forall i, j :: 0 <= i < j < |sizes| ==>
         PosSet(Positions(sizes[i], draws[i][0])) !! PosSet(Positions(sizes[j], draws[j][0])))
  }

  /** When the first draw of every ship lies on empty cells and no two of them
      overlap, every ship is placed from its first draw and the fleet is placed. */
  lemma {:induction false} PlaceShipsSucceeds(b: Board, sizes: seq<nat>, draws: seq<seq<Draw>>)
    requires ValidBoard(b) && DrawsFor(sizes, draws)
    requires FirstDrawsFit(b, sizes, draws)
    ensures PlaceShips(b, sizes, draws).Some?
    ensures forall j :: 0 <= j < |sizes| ==>
      PlaceShips(b, sizes, draws).value.ships[j] == PlacedShip(sizes[j], Positions(sizes[j], draws[j][0]))
    decreases |sizes|
  {
    if |sizes| > 0 {
      FirstDrawPlaced(b, sizes[0], draws[0]);
      var p := PlaceShip(b, sizes[0], draws[0]).value;
      RestFit(b, p.board, sizes, draws);
      PlaceShipsSucceeds(p.board, sizes[1..], draws[1..]);
      PlaceShipsCons(b, sizes, draws, p);
    }
  }

  /** Once the first ship is stamped from its first draw, the first draws of
      the others still fit. */
  lemma RestFit(b: Board, mid: Board, sizes: seq<nat>, draws: seq<seq<Draw>>)
    requires ValidBoard(b) && ValidBoard(mid) && DrawsFor(sizes, draws) && |sizes| > 0
    requires FirstDrawsFit(b, sizes, draws)
    requires forall q :: InBounds(q) ==> At(mid, q) == if q in Positions(sizes[0], draws[0][0]) then Ship else At(b, q)
    ensures DrawsFor(sizes[1..], draws[1..])
    ensures FirstDrawsFit(mid, sizes[1..], draws[1..])
  {
    var sizes', draws' := sizes[1..], draws[1..];
    forall j | 0 <= j < |sizes'|
      ensures AllEmpty(mid, Positions(sizes'[j], draws'[j][0]))
    {
      StillEmpty(b, mid, Positions(sizes[0], draws[0][0]), Positions(sizes[j + 1], draws[j + 1][0]));
    }
    forall i, j | 0 <= i < j < |sizes'|
      ensures PosSet(Positions(sizes'[i], draws'[i][0])) !! PosSet(Positions(sizes'[j], draws'[j][0]))
    {
      assert sizes'[i] == sizes[i + 1] && sizes'[j] == sizes[j + 1];
    }
  }

  /** A fleet whose first ship was placed from its first draw and whose other
      ships were placed from their first draws on the board it left. */
  lemma PlaceShipsCons(b: Board, sizes: seq<nat>, draws: seq<seq<Draw>>, p: Placed)
    requires ValidBoard(b) && DrawsFor(sizes, draws) && |sizes| > 0 && |draws[0]| > 0
    requires PlaceShip(b, sizes[0], draws[0]) == Some(p)
    requires p.ship == PlacedShip(sizes[0], Positions(sizes[0], draws[0][0]))
    requires PlaceShips(p.board, sizes[1..], draws[1..]).Some?
    requires forall j :: 0 <= j < |sizes| - 1 ==>
      PlaceShips(p.board, sizes[1..], draws[1..]).value.ships[j] == PlacedShip(sizes[1..][j], Positions(sizes[1..][j], draws[1..][j][0]))
    ensures PlaceShips(b, sizes, draws).Some?
    ensures forall j :: 0 <= j < |sizes| ==>
      PlaceShips(b, sizes, draws).value.ships[j] == PlacedShip(sizes[j], Positions(sizes[j], draws[j][0]))
  {
    var rest := PlaceShips(p.board, sizes[1..], draws[1..]).value;
    var ships := PlaceShips(b, sizes, draws).value.ships;
    assert ships == [p.ship] + rest.ships;
    forall j | 0 <= j < |sizes|
      ensures ships[j] == PlacedShip(sizes[j], Positions(sizes[j], draws[j][0]))
    {
      if j > 0 {
        assert ships[j] == rest.ships[j - 1];
      }
    }
  }

  /** A ship whose first draw lies on empty cells is placed from that draw. */
  lemma FirstDrawPlaced(b: Board, size: nat, ds: seq<Draw>)
    requires ValidBoard(b) && |ds| > 0
    requires forall k :: 0 <= k < |ds| ==> DrawInRange(size, ds[k])
    requires AllEmpty(b, Positions(size, ds[0]))
    ensures PlaceShip(b, size, ds).Some?
    ensures PlaceShip(b, size, ds).value.ship == PlacedShip(size, Positions(size, ds[0]))
  {
    assert TryPlace(b, size, ds[0]).Some?;
  }

  /** Cells that were empty and lie outside a stamped ship are still empty. */
  lemma StillEmpty(b: Board, mid: Board, ps: seq<Pos>, cs: seq<Pos>)
    requires ValidBoard(b) && ValidBoard(mid)
    requires forall q :: InBounds(q) ==> At(mid, q) == if q in ps then Ship else At(b, q)
    requires forall i :: 0 <= i < |cs| ==> InBounds(cs[i])
    requires PosSet(ps) !! PosSet(cs)
    requires AllEmpty(b, cs)
    ensures AllEmpty(mid, cs)
  {
    forall i | 0 <= i < |cs|
      ensures At(mid, cs[i]) == Empty
    {
      assert cs[i] in PosSet(cs);
    }
  }
}
