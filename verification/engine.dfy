/**
 The rule engine: the game state, the win predicate, one move (`tryMove`) and
 `reset`. The DOM attribute that the game uses as its win flag is the `won` field.
 */
module Engine {
  import opened Grid

  /** The boxes and player captured when the level is loaded. */
  datatype Snapshot = Snapshot(boxes: set<Pos>, player: Pos)

  /** Walls and goals are static; boxes, player and the win flag change. */
  datatype Game = Game(
    walls: set<Pos>,
    goals: set<Pos>,
    boxes: set<Pos>,
    player: Pos,
    initial: Snapshot,
    won: bool)

  predicate IsWall(g: Game, p: Pos) { p in g.walls }
  predicate IsGoal(g: Game, p: Pos) { p in g.goals }
  predicate HasBox(g: Game, p: Pos) { p in g.boxes }

  /** The win condition: at least one box, and every box on a goal. */
  predicate AllOnGoals(boxes: set<Pos>, goals: set<Pos>) {
    boxes != {} && boxes <= goals
  }

  /**
   The win check as the game performs it: scan the boxes, give up at the first
   one off a goal, and otherwise win only if some box exists.
   */
  method CheckWin(boxes: set<Pos>, goals: set<Pos>) returns (win: bool)
    ensures win <==> boxes != {} && forall b :: b in boxes ==> b in goals
  {
    var rest := boxes;
    while rest != {}
      invariant rest <= boxes
      invariant forall b :: b in boxes && b !in rest ==> b in goals
      decreases rest
    {
      var k :| k in rest;
      if k !in goals {
        return false;
      }
      rest := rest - {k};
    }
    return |boxes| > 0;
  }

  /**
   The well-formedness the rules preserve: nothing stands on a wall, the player
   never shares a cell with a box, the snapshot satisfies the same, the box count
   is the snapshot's, and the win flag is only set when the win condition holds.
   */
  ghost predicate Valid(g: Game) {
    && g.boxes !! g.walls
    && g.player !in g.walls
    && g.player !in g.boxes
    && g.initial.boxes !! g.walls
    && g.initial.player !in g.walls
    && g.initial.player !in g.initial.boxes
    && |g.boxes| == |g.initial.boxes|
    && (g.won ==> AllOnGoals(g.boxes, g.goals))
  }

  /**
   A move request takes effect: the game is not won, the target cell is no wall,
   and a box on it (if any) has a free, wall-less cell behind it.
   */
  predicate Accepted(g: Game, d: Dir) {
    var n := Target(g.player, d);
    var nn := Target(n, d);
    !g.won && n !in g.walls && (n in g.boxes ==> nn !in g.walls && nn !in g.boxes)
  }

  /** Raise the win flag if the win condition now holds; never lowers it. */
  function Settle(g: Game): Game {
    if AllOnGoals(g.boxes, g.goals) then g.(won := true) else g
  }

  /**
   One move request. A won game is frozen; a step into a wall is ignored; a step
   onto a box pushes it one cell further unless that cell is a wall or holds a
   box, in which case the step is ignored; otherwise the player steps. The win
   flag is re-evaluated after every accepted step only.
   */
  function Move(g: Game, d: Dir): (g': Game)
    // walls, goals and the snapshot are never touched
    ensures g'.walls == g.walls && g'.goals == g.goals && g'.initial == g.initial
    // frozen after a win, and a step into a wall changes nothing
    ensures g.won || Target(g.player, d) in g.walls ==> g' == g
    // a push against a wall or another box changes nothing
    ensures var n := Target(g.player, d); var nn := Target(n, d);
      n in g.boxes && (nn in g.walls || nn in g.boxes) ==> g' == g
    // a push relocates exactly the pushed box and the player takes its cell
    ensures var n := Target(g.player, d); var nn := Target(n, d);
      !g.won && n !in g.walls && n in g.boxes && nn !in g.walls && nn !in g.boxes ==>
        && g'.player == n
        && n !in g'.boxes && nn in g'.boxes
        && (forall b :: b != n && b != nn ==> (b in g'.boxes <==> b in g.boxes))
        && |g'.boxes| == |g.boxes|
    // a plain step moves the player by (dy, dx) and leaves the boxes alone
    ensures var n := Target(g.player, d);
      !g.won && n !in g.walls && n !in g.boxes ==>
        g'.player.r == g.player.r + d.dy && g'.player.c == g.player.c + d.dx && g'.boxes == g.boxes
    // a rejected request changes nothing; after an accepted one the flag is
    // raised exactly when the win condition holds
    ensures !Accepted(g, d) ==> g' == g
    ensures Accepted(g, d) ==> (g'.won <==> AllOnGoals(g'.boxes, g'.goals))
    // the flag only ever goes from false to true
    ensures g.won ==> g'.won
    ensures g'.won && !g.won ==> AllOnGoals(g'.boxes, g'.goals)
    ensures Valid(g) ==> Valid(g')
  {
    if g.won then g
    else
      var n := Target(g.player, d);
      if IsWall(g, n) then g
      else if HasBox(g, n) then
        var nn := Target(n, d);
        if IsWall(g, nn) || HasBox(g, nn) then g
        else
          var boxes' := g.boxes - {n} + {nn};
          assert |g.boxes - {n}| == |g.boxes| - 1;
          Settle(g.(boxes := boxes', player := n))
      else
        Settle(g.(player := n))
  }

  /** Restore the boxes and the player from the snapshot and clear the win flag. */
  function Reset(g: Game): (g': Game)
    ensures g'.boxes == g.initial.boxes && g'.player == g.initial.player && !g'.won
    ensures g'.walls == g.walls && g'.goals == g.goals && g'.initial == g.initial
    ensures Valid(g) ==> Valid(g')
  {
    g.(boxes := g.initial.boxes, player := g.initial.player, won := false)
  }
}
