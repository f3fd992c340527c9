/**
 The one level the game ships: a 10 by 10 room walled all round, with a goal at
 (2, 3), a box at (3, 4) and the player at (5, 4). Its loaded state is written
 out by hand and shown to be what the parser produces; the lemmas then play it.
 */
module FixedLevel {
  import opened Optional
  import opened Grid
  import opened Engine
  import opened Level
  import opened Session

  const Rows: seq<string> := [
    "##########",
    "#        #",
    "#  .     #",
    "#   $    #",
    "#        #",
    "#   @    #",
    "#        #",
    "#        #",
    "#        #",
    "##########"
  ]

  /** The border of the 10 by 10 room. */
  function Border(): set<Pos> {
    set r: int, c: int | 0 <= r < 10 && 0 <= c < 10 && (r == 0 || r == 9 || c == 0 || c == 9) :: Pos(r, c)
  }

  function Start(): Game {
    Game(Border(), {Pos(2, 3)}, {Pos(3, 4)}, Pos(5, 4), Snapshot({Pos(3, 4)}, Pos(5, 4)), false)
  }

  /** The tile the level shows at `p`, read off the picture above. */
  function Expected(p: Pos): Option<char> {
    if !(0 <= p.r < 10 && 0 <= p.c < 10) then None
    else if p.r == 0 || p.r == 9 || p.c == 0 || p.c == 9 then Some('#')
    else if p == Pos(2, 3) then Some('.')
    else if p == Pos(3, 4) then Some('$')
    else if p == Pos(5, 4) then Some('@')
    else Some(' ')
  }

  lemma TileAt(p: Pos)
    ensures CharAt(Rows, p) == Expected(p)
  {
    if 0 <= p.r < 10 && 0 <= p.c < 10 {
      var row := Rows[p.r];
      if p.r == 0 || p.r == 9 {
        assert row == "##########";
      } else if p.r == 2 {
        assert row == "#  .     #";
      } else if p.r == 3 {
        assert row == "#   $    #";
      } else if p.r == 5 {
        assert row == "#   @    #";
      } else {
        assert row == "#        #";
      }
    }
  }

  /** The hand-written start is exactly what loading the level yields. */
  lemma StartIsLoaded()
    ensures LoadedFrom(Rows, Start())
  {
    forall p
      ensures CharAt(Rows, p) == Expected(p)
    {
      TileAt(p);
    }
  }

  /** Running a non-empty sequence is one step followed by the rest. */
  lemma RunFirst(g: Game, cmds: seq<Command>)
    requires |cmds| > 0
    ensures Run(g, cmds) == Run(Step(g, cmds[0]), cmds[1..])
  {
  }

  /** The shipped level loads a valid game, so every state it reaches is valid. */
  lemma Reachable(g: Game, cmds: seq<Command>)
    requires LoadedFrom(Rows, g)
    ensures Valid(Run(g, cmds))
  {
    assert IsPlayerCell(Rows, Pos(5, 4)) by { TileAt(Pos(5, 4)); }
    LoadedIsValid(Rows, g);
  }

  /** The shipped room with its one box at `box` and the player at `player`. */
  function Room(player: Pos, box: Pos, won: bool): Game {
    Game(Border(), {Pos(2, 3)}, {box}, player, Snapshot({Pos(3, 4)}, Pos(5, 4)), won)
  }

  predicate Inside(p: Pos) {
    1 <= p.r <= 8 && 1 <= p.c <= 8
  }

  /** In the room, a step onto a free inside cell just moves the player. */
  lemma Walk(player: Pos, box: Pos, d: Dir)
    requires Inside(Target(player, d)) && Target(player, d) != box && box != Pos(2, 3)
    ensures Move(Room(player, box, false), d) == Room(Target(player, d), box, false)
  {
    assert Target(player, d) !in Border();
  }

  /** In the room, pushing the box onto a free inside cell moves both; it wins on the goal. */
  lemma Push(player: Pos, box: Pos, d: Dir)
    requires IsUnit(d) && Target(player, d) == box && Inside(box) && Inside(Target(box, d))
    ensures Move(Room(player, box, false), d) == Room(box, Target(box, d), Target(box, d) == Pos(2, 3))
  {
    var nn := Target(box, d);
    var g := Room(player, box, false);
    assert box !in Border() && nn !in Border() && nn != box;
    assert !g.won && !IsWall(g, box) && HasBox(g, box) && !IsWall(g, nn) && !HasBox(g, nn);
    assert {box} - {box} + {nn} == {nn};
    var moved := g.(boxes := {nn}, player := box);
    assert Move(g, d) == Settle(moved);
    assert AllOnGoals({nn}, {Pos(2, 3)}) <==> nn == Pos(2, 3);
    assert Settle(moved) == Room(box, nn, nn == Pos(2, 3));
  }

  /**
   Pushing straight up never wins this level: the goal is one column left of the
   box. After two pushes the box sits under the top wall at (1, 4) and a further
   push is blocked and changes nothing.
   */
  lemma PushingUpIsBlocked()
    ensures var g := Run(Start(), [Go(Up), Go(Up), Go(Up)]);
      g.boxes == {Pos(1, 4)} && g.player == Pos(2, 4) && !g.won && Move(g, Up) == g
  {
    var cmds := [Go(Up), Go(Up), Go(Up)];
    var g0 := Start();
    assert g0 == Room(Pos(5, 4), Pos(3, 4), false);
    var g1 := Move(g0, Up);
    Walk(Pos(5, 4), Pos(3, 4), Up);
    var g2 := Move(g1, Up);
    Push(Pos(4, 4), Pos(3, 4), Up);
    var g3 := Move(g2, Up);
    Push(Pos(3, 4), Pos(2, 4), Up);
    assert g3 == Room(Pos(2, 4), Pos(1, 4), false);
    assert Pos(0, 4) in g3.walls;
    RunFirst(g0, cmds);
    RunFirst(g1, cmds[1..]);
    RunFirst(g2, cmds[2..]);
    assert cmds[1..][1..] == cmds[2..] && cmds[2..][1..] == [];
  }

  /** A five-move line that solves the level: push up once, walk round, push left. */
  const Solution: seq<Command> := [Go(Up), Go(Up), Go(Right), Go(Up), Go(Left)]

  /**
   The solution wins: the box ends on the goal. Once won, further moves are
   ignored, and a reset brings back the loaded game.
   */
  lemma SolutionWins(more: seq<Command>)
    ensures Run(Start(), Solution).won
    ensures Run(Start(), Solution).boxes == {Pos(2, 3)}
    ensures OnlyMoves(more) ==> Run(Run(Start(), Solution), more) == Run(Start(), Solution)
    ensures Reset(Run(Start(), Solution)) == Start()
  {
    var g0 := Start();
    assert g0 == Room(Pos(5, 4), Pos(3, 4), false);
    var g1 := Move(g0, Up);
    Walk(Pos(5, 4), Pos(3, 4), Up);
    var g2 := Move(g1, Up);
    Push(Pos(4, 4), Pos(3, 4), Up);
    var g3 := Move(g2, Right);
    Walk(Pos(3, 4), Pos(2, 4), Right);
    var g4 := Move(g3, Up);
    Walk(Pos(3, 5), Pos(2, 4), Up);
    var g5 := Move(g4, Left);
    Push(Pos(2, 5), Pos(2, 4), Left);
    assert g5 == Room(Pos(2, 4), Pos(2, 3), true);
    var cmds := Solution;
    RunFirst(g0, cmds);
    RunFirst(g1, cmds[1..]);
    RunFirst(g2, cmds[2..]);
    RunFirst(g3, cmds[3..]);
    RunFirst(g4, cmds[4..]);
    assert cmds[1..][1..] == cmds[2..] && cmds[2..][1..] == cmds[3..];
    assert cmds[3..][1..] == cmds[4..] && cmds[4..][1..] == [];
    assert Run(g0, cmds) == g5;
  }
}
