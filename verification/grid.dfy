/** Optional values, used where the game yields "nothing" rather than failing. */
module Optional {

  datatype Option<+T> = None | Some(value: T)
}

/**
 Board coordinates. The game keys its cell sets by the string "r,c"; that key is
 an injective encoding of the pair (r, c), so cells are modelled as the pair itself.
 Coordinates are unbounded: moves perform no bounds checks and rely on the level's
 wall border instead.
 */
module Grid {

  /** A cell, row first, as the game's `{ r, c }` objects. */
  datatype Pos = Pos(r: int, c: int)

  /** A step request: `dx` changes the column and `dy` changes the row. */
  datatype Dir = Dir(dx: int, dy: int)

  /** The cell one step from `p` in direction `d`. */
  function Target(p: Pos, d: Dir): Pos {
    Pos(p.r + d.dy, p.c + d.dx)
  }

  /** `p` comes strictly before `q` in row-major order. */
  predicate Before(p: Pos, q: Pos) {
    p.r < q.r || (p.r == q.r && p.c < q.c)
  }

  /** One of the four cardinal unit steps. */
  predicate IsUnit(d: Dir) {
    (d.dx == 0 && (d.dy == 1 || d.dy == -1)) || (d.dy == 0 && (d.dx == 1 || d.dx == -1))
  }

  const Left := Dir(-1, 0)
  const Right := Dir(1, 0)
  const Up := Dir(0, -1)
  const Down := Dir(0, 1)
}
