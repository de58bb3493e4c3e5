/** The functions of a row in a run of the whole system, told from the events of that run alone. */
module FunctionLog {
  import opened Bits
  import opened Rows
  import opened SlotBridge
  import F = Functions

  /** What one step does to the functions of row i; a visit of the send thread may take one change from the queue. */
  ghost function EventOf(w: World, s: Step, env: Env, i: nat): seq<F.Event>
    requires WellFormed(w) && Possible(w, s)
  {
    match s
    case AddRow(_) => []
    case Scan(j) => if j == i && VisitOf(w, i, env).row != w.rows[i] then [F.Dequeue] else []
    case Throttle(j, c) =>
      if j != i then []
      else match c
        case Function(e) => [e]
        case Adopt(reply) => [F.Initialize(reply.functions)]
        case TakenElsewhere => [F.Dequeue]
        case _ => []
  }

  /** What the further steps of a run do to the functions of row i. */
  ghost function EventsAfter(run: seq<Step>, more: seq<Step>, env: Env, i: nat): seq<F.Event>
    requires IsRun(run + more, env)
    decreases |more|
  {
    if more == [] then []
    else
      RunPrefix(run, more, env);
      var less := run + more[..|more| - 1];
      EventsAfter(run, more[..|more| - 1], env, i) + EventOf(Exec(less, env), more[|more| - 1], env, i)
  }

  ghost function EventsOf(run: seq<Step>, env: Env, i: nat): seq<F.Event>
    requires IsRun(run, env)
  {
    assert [] + run == run;
    EventsAfter([], run, env, i)
  }

  /** The functions of row i, empty before the row is there. */
  function TableOf(w: World, i: nat): F.Table {
    if i < |w.rows| then w.rows[i].functions else F.EMPTY
  }

  lemma VisitTakesAtMostOne(row: Row, s: Slot, at: nat, env: Env)
    requires ValidRow(row) && Ready(s)
    ensures var v := Operate(row, s, at, env);
            v.row == row || v.row == row.(functions := F.Apply(row.functions, F.Dequeue))
  {
    hide With, DirectionOf, DirfMask, SndMask, SpeedByte;
  }

  lemma StepIsItsEvent(w: World, s: Step, env: Env, i: nat)
    requires WellFormed(w) && Possible(w, s)
    ensures TableOf(Take(w, s, env), i) == F.Run(TableOf(w, i), EventOf(w, s, env, i))
  {
    hide Operate, Activate, F.Apply, WellFormed;
    assert forall e: F.Event :: [e][..0] == [];
    if s == Scan(i) {
      VisitsTable(w, i, env);
    }
  }

  lemma VisitsTable(w: World, i: nat, env: Env)
    requires WellFormed(w) && i < |w.rows|
    ensures var row, v := w.rows[i], VisitOf(w, i, env);
            v.row == row || v.row == row.(functions := F.Apply(row.functions, F.Dequeue))
  {
    var row, known := w.rows[i], SlotOf(w, w.rows[i].address);
    if row.active && known.Some? && known.value.phase == Active {
      VisitTakesAtMostOne(row, known.value, |w.log|, env);
    }
    hide Operate, Activating, F.Apply;
  }

  /** However a run goes on, the functions of a row are its table with the events of that part applied. */
  lemma {:induction false} TableAfter(run: seq<Step>, more: seq<Step>, env: Env, i: nat)
    requires IsRun(run + more, env) && IsRun(run, env)
    ensures TableOf(Exec(run + more, env), i) == F.Run(TableOf(Exec(run, env), i), EventsAfter(run, more, env, i))
    decreases |more|
  {
    hide Take, EventOf;
    RunPrefix(run, more, env);
    if more == [] {
      assert run + more == run;
    } else {
      var less, s := more[..|more| - 1], more[|more| - 1];
      var w := Exec(run + less, env);
      TableAfter(run, less, env, i);
      StepIsItsEvent(w, s, env, i);
      F.RunInTwoParts(TableOf(Exec(run, env), i), EventsAfter(run, less, env, i), EventOf(w, s, env, i));
    }
  }

  /** In every run, each function is its last change or adopted state, among all that its row was given. */
  lemma FunctionIsItsLastWrite(run: seq<Step>, env: Env, i: nat, n: int)
    requires IsRun(run, env) && i < |Exec(run, env).rows|
    ensures Exec(run, env).rows[i].functions == F.Run(F.EMPTY, EventsOf(run, env, i))
    ensures F.On(Exec(run, env).rows[i].functions, n) == F.LastWrite(F.Writes(F.EMPTY, EventsOf(run, env, i)), n, false)
  {
    assert [] + run == run;
    TableAfter([], run, env, i);
    F.LastWriteWins(F.EMPTY, EventsOf(run, env, i), n);
  }
}
