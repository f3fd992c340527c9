/**
 The level parser. A level is a sequence of rows of tile characters: `#` wall,
 `.` goal, `$` box, `@` player, `*` box on a goal, `+` player on a goal, and
 anything else (normally a space) plain floor. The width is the first row's
 length; a shorter row simply has no tiles past its end, a longer one is cut.
 */
module Level {
  import opened Optional
  import opened Grid
  import opened Engine

  /** The tile at `p`, or None where the scan never reads one. */
  function CharAt(level: seq<string>, p: Pos): Option<char> {
    if 0 < |level| && 0 <= p.r < |level| && 0 <= p.c < |level[0]| && p.c < |level[p.r]|
    then Some(level[p.r][p.c])
    else None
  }

  /** The tile at `p` is one of `tiles`. */
  predicate TileIn(level: seq<string>, p: Pos, tiles: set<char>) {
    CharAt(level, p).Some? && CharAt(level, p).value in tiles
  }

  predicate IsPlayerCell(level: seq<string>, p: Pos) {
    TileIn(level, p, {'@', '+'})
  }

  /**
   `player` is where the scan of the cells before `lim` (row-major) leaves the
   player: the last player tile met, or the default (0, 0) when none was met.
   */
  ghost predicate LastPlayerBefore(level: seq<string>, player: Pos, lim: Pos) {
    if exists q :: IsPlayerCell(level, q) && Before(q, lim) then
      && IsPlayerCell(level, player)
      && Before(player, lim)
      && forall q :: IsPlayerCell(level, q) && Before(q, lim) ==> q == player || Before(q, player)
    else
      player == Pos(0, 0)
  }

  /** Every tile of the level comes before this cell. */
  function End(level: seq<string>): Pos {
    Pos(|level|, 0)
  }

  /** `g` is the freshly loaded game described by `level`. */
  ghost predicate LoadedFrom(level: seq<string>, g: Game) {
    && (forall p :: p in g.walls <==> TileIn(level, p, {'#'}))
    && (forall p :: p in g.goals <==> TileIn(level, p, {'.', '*', '+'}))
    && (forall p :: p in g.boxes <==> TileIn(level, p, {'$', '*'}))
    && LastPlayerBefore(level, g.player, End(level))
    && g.initial == Snapshot(g.boxes, g.player)
    && !g.won
  }

  /** The level has a player tile somewhere. */
  ghost predicate HasPlayer(level: seq<string>) {
    exists q :: IsPlayerCell(level, q)
  }

  /**
   The scan sets of the cells before `lim` hold exactly the tiles of their kind
   there.
   */
  ghost predicate ScannedBefore(level: seq<string>, walls: set<Pos>, goals: set<Pos>, boxes: set<Pos>, lim: Pos) {
    && (forall p :: p in walls <==> TileIn(level, p, {'#'}) && Before(p, lim))
    && (forall p :: p in goals <==> TileIn(level, p, {'.', '*', '+'}) && Before(p, lim))
    && (forall p :: p in boxes <==> TileIn(level, p, {'$', '*'}) && Before(p, lim))
  }

  /** The parser's working sets and player while it scans. */
  datatype Scan = Scan(walls: set<Pos>, goals: set<Pos>, boxes: set<Pos>, player: Pos)

  /** Record the tile `ch` read at `here`. */
  function Visit(s: Scan, ch: Option<char>, here: Pos): Scan {
    var s := if ch == Some('#') then s.(walls := s.walls + {here}) else s;
    var s := if ch == Some('.') then s.(goals := s.goals + {here}) else s;
    var s := if ch == Some('$') then s.(boxes := s.boxes + {here}) else s;
    var s := if ch == Some('@') then s.(player := here) else s;
    var s := if ch == Some('*') then s.(boxes := s.boxes + {here}, goals := s.goals + {here}) else s;
    if ch == Some('+') then s.(goals := s.goals + {here}, player := here) else s
  }

  /** The scan of the cells before `lim` is complete and correct. */
  ghost predicate ScanUpTo(level: seq<string>, s: Scan, lim: Pos) {
    ScannedBefore(level, s.walls, s.goals, s.boxes, lim) && LastPlayerBefore(level, s.player, lim)
  }

  /** Visiting a cell extends a correct scan to the next cell of its row. */
  lemma VisitExtends(level: seq<string>, s: Scan, here: Pos)
    requires ScanUpTo(level, s, here)
    ensures ScanUpTo(level, Visit(s, CharAt(level, here), here), Pos(here.r, here.c + 1))
  {
    var next := Pos(here.r, here.c + 1);
    var s' := Visit(s, CharAt(level, here), here);
    assert forall p :: Before(p, next) <==> Before(p, here) || p == here;
    VisitPlayer(level, s, here);
  }

  /** The player half of `VisitExtends`: a player tile at `here` becomes the last one met. */
  lemma VisitPlayer(level: seq<string>, s: Scan, here: Pos)
    requires LastPlayerBefore(level, s.player, here)
    ensures LastPlayerBefore(level, Visit(s, CharAt(level, here), here).player, Pos(here.r, here.c + 1))
  {
    var next := Pos(here.r, here.c + 1);
    var p' := Visit(s, CharAt(level, here), here).player;
    if IsPlayerCell(level, here) {
      assert p' == here;
      assert forall q :: Before(q, next) ==> Before(q, here) || q == here;
    } else {
      assert p' == s.player;
      if exists q :: IsPlayerCell(level, q) && Before(q, next) {
        var q :| IsPlayerCell(level, q) && Before(q, next);
        assert Before(q, here);
      }
    }
  }

  /** A finished row of width `w` is the same limit as the start of the next row. */
  lemma RowDone(level: seq<string>, s: Scan, r: int)
    requires 0 < |level|
    requires ScanUpTo(level, s, Pos(r, |level[0]|))
    ensures ScanUpTo(level, s, Pos(r + 1, 0))
  {
    var lim := Pos(r, |level[0]|);
    var lim' := Pos(r + 1, 0);
    assert forall p :: CharAt(level, p).Some? ==> (Before(p, lim) <==> Before(p, lim'));
    assert forall p :: IsPlayerCell(level, p) ==> (Before(p, lim) <==> Before(p, lim'));
  }

  /** The loaded game a finished scan describes, with its snapshot taken. */
  function Loaded(s: Scan): Game {
    Game(s.walls, s.goals, s.boxes, s.player, Snapshot(s.boxes, s.player), false)
  }

  /** A finished scan loads the level. */
  lemma ScanFinished(level: seq<string>, s: Scan)
    requires ScanUpTo(level, s, End(level))
    ensures LoadedFrom(level, Loaded(s))
  {
    var lim := End(level);
    assert forall p :: CharAt(level, p).Some? ==> Before(p, lim);
    if HasPlayer(level) {
      var q :| IsPlayerCell(level, q);
      assert Before(q, lim);
    }
  }

  /**
   A level with a player tile loads a valid game: one tile per cell keeps boxes
   and the player off walls and the player off boxes. Without a player tile the
   default (0, 0) may be a wall or a box.
   */
  lemma LoadedIsValid(level: seq<string>, g: Game)
    requires LoadedFrom(level, g) && HasPlayer(level)
    ensures Valid(g)
  {
    var q :| IsPlayerCell(level, q);
    assert Before(q, End(level));
    assert IsPlayerCell(level, g.player);
  }

  /**
   Load a level: compute its size, scan every cell row by row, and snapshot the
   boxes and player. An empty level has no first row to size it and fails.
   */
  method ParseLevel(level: seq<string>) returns (result: Option<Game>)
    ensures result.None? <==> |level| == 0
    ensures result.Some? ==> LoadedFrom(level, result.value)
    ensures result.Some? && HasPlayer(level) ==> Valid(result.value)
  {
    if |level| == 0 {
      return None;
    }
    var h := |level|;
    var w := |level[0]|;
    var scan := Scan({}, {}, {}, Pos(0, 0));
    var r := 0;
    while r < h
      invariant 0 <= r <= h
      invariant ScanUpTo(level, scan, Pos(r, 0))
    {
      var c := 0;
      while c < w
        invariant 0 <= c <= w
        invariant ScanUpTo(level, scan, Pos(r, c))
      {
        var here := Pos(r, c);
        VisitExtends(level, scan, here);
        scan := Visit(scan, CharAt(level, here), here);
        c := c + 1;
      }
      RowDone(level, scan, r);
      r := r + 1;
    }
    ScanFinished(level, scan);
    if HasPlayer(level) {
      LoadedIsValid(level, Loaded(scan));
    }
    result := Some(Loaded(scan));
  }
}
