/** What a row asks for in a run of the whole system, told from the throttles' commands alone. */
module RowLog {
  import opened Bits
  import opened Frames
  import opened Rows
  import opened SlotBridge

  /** The throttles' commands for row i, in order. */
  function CommandsOf(run: seq<Step>, i: nat): seq<Command> {
    if run == [] then []
    else
      var s := run[|run| - 1];
      CommandsOf(run[..|run| - 1], i) + if s.Throttle? && s.row == i then [s.command] else []
  }

  /** The last speed on the scale that was asked for or adopted; an emergency stop asks for stop. */
  function LastSpeed(cs: seq<Command>): int {
    if cs == [] then 0
    else match cs[|cs| - 1]
      case SetSpeed(v) => if -1 <= v <= 126 then v else LastSpeed(cs[..|cs| - 1])
      case EmergencyStop => 0
      case Adopt(r) => r.speed
      case _ => LastSpeed(cs[..|cs| - 1])
  }

  /** The last direction that was asked for or adopted. */
  function LastDirection(cs: seq<Command>): Direction {
    if cs == [] then Forward
    else match cs[|cs| - 1]
      case SetDirection(d) => d
      case Adopt(r) => r.direction
      case _ => LastDirection(cs[..|cs| - 1])
  }

  /** Whether the last to ask wanted the loco or gave it back. */
  predicate LastWanted(cs: seq<Command>) {
    cs != [] &&
    match cs[|cs| - 1]
    case Acquire => true
    case Release => false
    case _ => LastWanted(cs[..|cs| - 1])
  }

  lemma {:induction false} NoRowNoCommands(run: seq<Step>, env: Env, i: nat)
    requires IsRun(run, env) && |Exec(run, env).rows| <= i
    ensures CommandsOf(run, i) == []
    decreases |run|
  {
    if run != [] {
      TakeKeepsWellFormed(Exec(run[..|run| - 1], env), run[|run| - 1], env);
      hide Take;
      NoRowNoCommands(run[..|run| - 1], env, i);
    }
  }

  /** The row asks for what these commands amount to. */
  predicate SaysSo(row: Row, cs: seq<Command>) {
    row.speed == LastSpeed(cs) && row.direction == LastDirection(cs) && row.active == LastWanted(cs)
  }

  lemma CommandSaysSo(row: Row, cs: seq<Command>, c: Command)
    requires SaysSo(row, cs)
    ensures SaysSo(Obey(row, c), cs + [c])
  {
    assert (cs + [c])[..|cs|] == cs;
  }

  lemma VisitAsksNothing(w: World, j: nat, env: Env)
    requires WellFormed(w) && j < |w.rows|
    ensures var row := AfterVisit(w, j, env).rows[j];
            row.speed == w.rows[j].speed && row.direction == w.rows[j].direction && row.active == w.rows[j].active
  {
    hide Visit;
    VisitIsValid(w.rows[j], SlotOf(w, w.rows[j].address), |w.log|, env);
  }

  /** In every run speed, direction and activity of a row are what was last asked for; at first 0, Forward, unwanted. */
  lemma {:induction false} RowIsItsLastCommands(run: seq<Step>, env: Env, i: nat)
    requires IsRun(run, env) && i < |Exec(run, env).rows|
    ensures SaysSo(Exec(run, env).rows[i], CommandsOf(run, i))
    decreases |run|
  {
    hide WellFormed, SaysSo, Obey, HasRow, VisitOf;
    var before, s := run[..|run| - 1], run[|run| - 1];
    var w := Exec(before, env);
    assert CommandsOf(before, i) + [] == CommandsOf(before, i);
    if i >= |w.rows| {
      NoRowNoCommands(before, env, i);
      TakeKeepsWellFormed(w, s, env);
      assert Exec(run, env).rows[i] == NewRow(s.address);
      assert SaysSo(NewRow(s.address), []) by { NewRowSaysSo(s.address); }
    } else {
      RowIsItsLastCommands(before, env, i);
      match s
      case Throttle(j, c) =>
        if j == i { CommandSaysSo(w.rows[i], CommandsOf(before, i), c); }
      case Scan(j) =>
        VisitAsksNothing(w, j, env);
        SameSaysSo(w.rows[i], Exec(run, env).rows[i], CommandsOf(before, i));
      case AddRow(_) =>
    }
  }

  lemma NewRowSaysSo(a: Address)
    ensures SaysSo(NewRow(a), [])
  {
  }

  lemma SameSaysSo(row: Row, row1: Row, cs: seq<Command>)
    requires SaysSo(row, cs)
    requires row1.speed == row.speed && row1.direction == row.direction && row1.active == row.active
    ensures SaysSo(row1, cs)
  {
  }
}
