/** The 8×8 board of the rules engine: cell states, coordinates and the pure
    read and update operations the placement and move logic build on. */
module Grid {

  /** Side length of the square board; the game logic writes it as the literal 8. */
  const Size: int := 8

  /** The four mutually exclusive states of a cell. A ship cell carries no owner:
      both fleets share one board and nothing on it says whose ship a cell holds. */
  datatype CellState = Empty | Ship | Hit | Miss

  /** A coordinate; `x` indexes the outer array of the board, `y` the inner one. */
  datatype Pos = Pos(x: int, y: int)

  /** The board as an array of rows, `board[x][y]`. */
  type Board = seq<seq<CellState>>

  predicate InBounds(p: Pos) {
    0 <= p.x < Size && 0 <= p.y < Size
  }

  /** The board has the 8×8 shape every coordinate in bounds can index. */
  predicate ValidBoard(b: Board) {
    |b| == Size && forall i :: 0 <= i < |b| ==> |b[i]| == Size
  }

  function At(b: Board, p: Pos): CellState
    requires ValidBoard(b) && InBounds(p)
  {
    b[p.x][p.y]
  }

  /** `board[x][y] = c`: the one target cell takes the new state and every other
      cell keeps its old one. */
  function Update(b: Board, p: Pos, c: CellState): (r: Board)
    requires ValidBoard(b) && InBounds(p)
    ensures ValidBoard(r)
    ensures At(r, p) == c
    ensures forall q :: InBounds(q) && q != p ==> At(r, q) == At(b, q)
  {
    b[p.x := b[p.x][p.y := c]]
  }

  /** `Array(repeating: Array(repeating: .empty, count: 8), count: 8)`. */
  function EmptyBoard(): (r: Board)
    ensures ValidBoard(r)
    ensures forall q :: InBounds(q) ==> At(r, q) == Empty
  {
    seq(Size, _ => seq(Size, _ => Empty))
  }

  /** The set of in-bounds coordinates whose cell reads `c`. */
  function Cells(b: Board, c: CellState): (s: set<Pos>)
    requires ValidBoard(b)
    ensures forall q :: q in s <==> InBounds(q) && At(b, q) == c
  {
    var s := set x, y | 0 <= x < Size && 0 <= y < Size && b[x][y] == c :: Pos(x, y);
    assert forall q :: InBounds(q) && At(b, q) == c ==> Pos(q.x, q.y) in s;
    s
  }

  /** The cells already fired at: those reading `Hit` or `Miss`. */
  function Resolved(b: Board): (s: set<Pos>)
    requires ValidBoard(b)
    ensures forall q :: q in s <==> InBounds(q) && (At(b, q) == Hit || At(b, q) == Miss)
  {
    Cells(b, Hit) + Cells(b, Miss)
  }

  /** Turning one unresolved cell into `Hit` or `Miss` adds exactly that cell to
      the resolved set, so the number of resolved cells grows by one. */
  lemma ResolveOneCell(b: Board, p: Pos, c: CellState)
    requires ValidBoard(b) && InBounds(p)
    requires At(b, p) == Empty || At(b, p) == Ship
    requires c == Hit || c == Miss
    ensures p !in Resolved(b)
    ensures Resolved(Update(b, p, c)) == Resolved(b) + {p}
    ensures |Resolved(Update(b, p, c))| == |Resolved(b)| + 1
  {
  }
}
