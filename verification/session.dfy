/**
 Driving the engine: the key table that turns a key name into a command, one
 command at a time, and whole command sequences. The key handler lower-cases the
 key name, maps `r` to a reset and the arrow keys and WASD to unit steps, and
 ignores every other key.
 */
module Session {
  import opened Optional
  import opened Grid
  import opened Engine

  datatype Command = Go(d: Dir) | Restart

  /** The two phases of the game: moves are only honoured while Playing. */
  datatype Phase = Playing | Won

  function PhaseOf(g: Game): Phase {
    if g.won then Won else Playing
  }

  /** Lower-case an ASCII letter; every other character is left alone. */
  function LowerChar(ch: char): char {
    if 'A' <= ch <= 'Z' then (ch as int - 'A' as int + 'a' as int) as char else ch
  }

  /** Lower-case a key name character by character. */
  function Lower(s: string): (t: string)
    ensures |t| == |s|
    ensures forall i :: 0 <= i < |s| ==> t[i] == LowerChar(s[i])
    ensures forall i :: 0 <= i < |t| ==> !('A' <= t[i] <= 'Z')
  {
    if |s| == 0 then "" else [LowerChar(s[0])] + Lower(s[1..])
  }

  /** The key table: which command, if any, a key press issues. */
  function KeyCommand(key: string): (cmd: Option<Command>)
    ensures cmd.Some? && cmd.value.Go? ==> IsUnit(cmd.value.d)
    ensures cmd == Some(Restart) <==> Lower(key) == "r"
    ensures cmd.None? <==> Lower(key) !in {"r", "arrowleft", "a", "arrowright", "d", "arrowup", "w", "arrowdown", "s"}
  {
    Table(Lower(key))
  }

  /** The table itself, looked up by the lower-cased key name. */
  function Table(k: string): Option<Command> {
    if k == "r" then Some(Restart)
    else if k == "arrowleft" || k == "a" then Some(Go(Left))
    else if k == "arrowright" || k == "d" then Some(Go(Right))
    else if k == "arrowup" || k == "w" then Some(Go(Up))
    else if k == "arrowdown" || k == "s" then Some(Go(Down))
    else None
  }

  /** Carry out one command. */
  function Step(g: Game, cmd: Command): (g': Game)
    ensures cmd.Restart? ==> PhaseOf(g') == Playing
    ensures cmd.Go? && PhaseOf(g) == Won ==> g' == g
    ensures cmd.Go? && PhaseOf(g) == Playing && PhaseOf(g') == Won ==> AllOnGoals(g'.boxes, g'.goals)
    ensures Valid(g) ==> Valid(g')
  {
    match cmd
    case Go(d) => Move(g, d)
    case Restart => Reset(g)
  }

  predicate OnlyMoves(cmds: seq<Command>) {
    forall i :: 0 <= i < |cmds| ==> cmds[i].Go?
  }

  /** Carry out a sequence of commands, first to last. */
  function Run(g: Game, cmds: seq<Command>): (g': Game)
    // the static parts of the level and the snapshot survive any history
    ensures g'.walls == g.walls && g'.goals == g.goals && g'.initial == g.initial
    // so a reset afterwards forgets the whole history
    ensures Reset(g') == Reset(g)
    ensures Valid(g) ==> Valid(g')
    // moves alone never change the number of boxes, and a won game stays frozen
    ensures OnlyMoves(cmds) ==> |g'.boxes| == |g.boxes|
    ensures OnlyMoves(cmds) && g.won ==> g' == g
    decreases |cmds|
  {
    if |cmds| == 0 then g
    else
      assert OnlyMoves(cmds) ==> OnlyMoves(cmds[1..]);
      Run(Step(g, cmds[0]), cmds[1..])
  }

  /** Running two command sequences one after the other is running their concatenation. */
  lemma {:induction false} RunAppend(g: Game, a: seq<Command>, b: seq<Command>)
    ensures Run(g, a + b) == Run(Run(g, a), b)
    decreases |a|
  {
    if |a| == 0 {
      assert a + b == b;
    } else {
      assert (a + b)[0] == a[0];
      assert (a + b)[1..] == a[1..] + b;
      RunAppend(Step(g, a[0]), a[1..], b);
    }
  }

  /** Reset from any reset game changes nothing: reset is idempotent. */
  lemma ResetIdempotent(g: Game)
    ensures Reset(Reset(g)) == Reset(g)
  {
  }

  lemma LowerIdempotent(s: string)
    ensures Lower(Lower(s)) == Lower(s)
  {
    assert forall i :: 0 <= i < |s| ==> LowerChar(LowerChar(s[i])) == LowerChar(s[i]);
  }

  /** The key table ignores the case of ASCII letters in key names. */
  lemma KeysIgnoreCase(key: string)
    ensures KeyCommand(Lower(key)) == KeyCommand(key)
  {
    LowerIdempotent(key);
    assert KeyCommand(Lower(key)) == Table(Lower(Lower(key)));
  }

  /**
   The arrow keys and WASD step by one cell: left and right change the column,
   up lowers the row index and down raises it.
   */
  lemma KeyDirections(key: string, p: Pos)
    ensures Lower(key) in {"arrowleft", "a"} ==> KeyCommand(key) == Some(Go(Left)) && Target(p, Left) == Pos(p.r, p.c - 1)
    ensures Lower(key) in {"arrowright", "d"} ==> KeyCommand(key) == Some(Go(Right)) && Target(p, Right) == Pos(p.r, p.c + 1)
    ensures Lower(key) in {"arrowup", "w"} ==> KeyCommand(key) == Some(Go(Up)) && Target(p, Up) == Pos(p.r - 1, p.c)
    ensures Lower(key) in {"arrowdown", "s"} ==> KeyCommand(key) == Some(Go(Down)) && Target(p, Down) == Pos(p.r + 1, p.c)
  {
  }
}
