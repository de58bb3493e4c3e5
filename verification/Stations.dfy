/**
 Several LocoNet connections serve the same rows, and one throttle waits for all of them. Every
 connection runs its own send thread with its own slot memory; what their attempts to occupy the
 slot of the awaited row come to is reported to one collector, which answers the throttle.
 */
module Stations {
  import opened Wrappers
  import opened Frames
  import opened Rows
  import B = SlotBridge
  import T = TraceSafety
  import V = Verdict

  /** Which row is followed, and what surrounds each connection. */
  datatype System = System(row: nat, envs: seq<B.Env>)

  datatype Connection = Connection(slots: map<Address, B.Slot>, log: seq<Event>)

  /** A report, the slot data it came from, the slot memory right after, and whether reporting raised an exception. */
  datatype Told = Told(report: V.Report, learned: Option<SlotRead>, slot: B.Slot, raised: bool)

  /**
   A throttle waiting for the followed row: the phases its slots had when it began, the collector, what
   was reported, and whether the row was released meanwhile.
   */
  datatype Wait = Wait(before: seq<B.Phase>, collector: V.State, told: seq<Told>, released: bool)

  datatype State = State(rows: seq<Row>, connections: seq<Connection>, waiting: Option<Wait>)

  /** A throttle begins to wait, or ends to: with the answer, or, having timed out, without. */
  datatype Step =
    | AddRow(address: Address)
    | Throttle(row: nat, command: Command)
    | Visit(client: nat, row: nat)
    | Await
    | EndWait(timedOut: bool)

  /** The system as connection k sees it. */
  function Local(j: State, k: nat): B.World
    requires k < |j.connections|
  {
    B.World(j.rows, j.connections[k].slots, j.connections[k].log)
  }

  ghost predicate WellFormed(j: State) {
    && B.WellFormed(B.World(j.rows, map[], []))
    && forall k :: 0 <= k < |j.connections| ==> B.WellFormed(Local(j, k))
  }

  function PhaseOf(c: Connection, a: Address): B.Phase {
    if a in c.slots then c.slots[a].phase else B.Untouched
  }

  function Phases(j: State, i: nat): (phases: seq<B.Phase>)
    requires i < |j.rows|
    ensures |phases| == |j.connections|
  {
    seq(|j.connections|, k requires 0 <= k < |j.connections| => PhaseOf(j.connections[k], j.rows[i].address))
  }

  // ----- Reporting -----

  /** The attempt to occupy a slot that a visit of row i makes, if it makes one. */
  function AttemptOf(w: B.World, i: nat, env: B.Env): Option<B.Attempt>
    requires i < |w.rows| && w.rows[i].address.Valid()
  {
    var row := w.rows[i];
    var s := B.SlotOf(w, row.address).GetOr(B.FRESH);
    if row.active && s.phase in {B.Untouched, B.Inactive} then Some(B.Activating(row.address, s, |w.log|, env))
    else None
  }

  /** What connection k reports of an attempt. */
  function ReportOf(k: nat, t: B.Attempt): (r: V.Report)
    ensures r.client == k
  {
    if t.phase.Active? && t.data.Some? then V.Succeeded(k, ReplyOf(t.data.value))
    else if t.phase.Occupied? then V.WasOccupied(k)
    else V.Failed(k)
  }

  /** The phase of a slot that was reported so. */
  function PhaseFor(r: V.Report): B.Phase {
    match r
    case Succeeded(_, _) => B.Active
    case WasOccupied(_) => B.Occupied
    case Failed(_) => B.Failed
  }

  predicate Raises(c: V.State, r: V.Report)
    requires V.Sized(c) && r.client < |c.results|
  {
    V.Take(c, r).crashes != c.crashes
  }

  function Tell(x: Wait, k: nat, t: B.Attempt, slot: B.Slot): Wait
    requires V.Sized(x.collector) && k < |x.collector.results|
  {
    var report := ReportOf(k, t);
    x.(collector := V.Take(x.collector, report),
       told := x.told + [Told(report, t.data, slot, Raises(x.collector, report))])
  }

  /** A new collector: every connection is asked. */
  function Fresh(n: nat): (c: V.State)
    ensures V.Initial(c) && |c.results| == n
  {
    V.State(seq(n, _ => V.Requesting), seq(n, _ => None), None, 0)
  }

  function Reports(told: seq<Told>): seq<V.Report> {
    seq(|told|, m requires 0 <= m < |told| => told[m].report)
  }

  // ----- Steps -----

  ghost predicate Sound(j: State, sys: System) {
    && WellFormed(j) && |j.connections| == |sys.envs|
    && (j.waiting.Some? ==>
          sys.row < |j.rows| && Tracked(j.waiting.value, |sys.envs|))
  }

  /** The collector's state follows from what it was told, and all of that is honest. */
  ghost predicate Tracked(x: Wait, n: nat) {
    && |x.before| == n && V.From(Reports(x.told), n)
    && x.collector == V.Run(Fresh(n), Reports(x.told))
    && forall m :: 0 <= m < |x.told| ==> Honest(x.told, m, n)
  }

  /** A reply is what its connection learned; its slot was Active right after, unless reporting raised an exception. */
  ghost predicate Honest(told: seq<Told>, m: nat, n: nat)
    requires V.From(Reports(told), n) && m < |told|
  {
    var t := told[m];
    && t.raised == Raises(V.Run(Fresh(n), Reports(told)[..m]), Reports(told)[m])
    && (t.report.Succeeded? ==>
          && t.learned.Some? && t.report.reply == ReplyOf(t.learned.value)
          && (!t.raised ==> t.slot.phase == B.Active && B.Ready(t.slot)))
  }

  /** Whether reporting raises an exception is for the collector to say, when there is one. */
  ghost predicate Agreed(j: State, k: nat, i: nat, sys: System)
    requires Sound(j, sys) && k < |sys.envs| && i < |j.rows|
  {
    var w := Local(j, k);
    var t := AttemptOf(w, i, sys.envs[k]);
    i == sys.row && t.Some? ==>
      (sys.envs[k].crash(|w.log| + |t.value.events|) <==>
         j.waiting.Some? && Raises(j.waiting.value.collector, ReportOf(k, t.value)))
  }

  ghost predicate Possible(j: State, s: Step, sys: System)
    requires Sound(j, sys)
  {
    match s
    case AddRow(a) => a.Valid()
    case Throttle(i, c) => i < |j.rows| && ValidCommand(c)
    case Visit(k, i) => k < |sys.envs| && i < |j.rows| && Agreed(j, k, i, sys)
    case Await => sys.row < |j.rows| && j.rows[sys.row].active
    case EndWait(timedOut) => j.waiting.Some? && (timedOut || j.waiting.value.collector.answer.Some?)
  }

  /** The slot data that the throttle's row adopts when the wait ends. */
  function Adopted(x: Wait, timedOut: bool): Option<Reply> {
    if timedOut || x.collector.answer.None? then None else x.collector.answer.value.slot
  }

  ghost function Take(j: State, s: Step, sys: System): State
    requires Sound(j, sys) && Possible(j, s, sys)
  {
    match s
    case AddRow(a) =>
      if B.HasRow(B.World(j.rows, map[], []), a) then j else j.(rows := j.rows + [NewRow(a)])
    case Throttle(i, c) =>
      State(j.rows[i := Obey(j.rows[i], c)], j.connections,
            if i == sys.row && c == Release && j.waiting.Some? then Some(j.waiting.value.(released := true))
            else j.waiting)
    case Visit(k, i) => AfterVisit(j, k, i, sys)
    case Await => j.(waiting := Some(Wait(Phases(j, sys.row), Fresh(|sys.envs|), [], false)))
    case EndWait(timedOut) =>
      var slot := Adopted(j.waiting.value, timedOut);
      State(if slot.Some? then j.rows[sys.row := Obey(j.rows[sys.row], Adopt(slot.value))] else j.rows,
            j.connections, None)
  }

  ghost function AfterVisit(j: State, k: nat, i: nat, sys: System): State
    requires Sound(j, sys) && k < |sys.envs| && i < |j.rows|
  {
    var w, a := Local(j, k), j.rows[i].address;
    var w1 := B.AfterVisit(w, i, sys.envs[k]);
    var t := AttemptOf(w, i, sys.envs[k]);
    State(w1.rows, j.connections[k := Connection(w1.slots, w1.log)],
          if i == sys.row && t.Some? && j.waiting.Some? then
            Some(Tell(j.waiting.value, k, t.value, B.SlotOf(w1, a).GetOr(B.FRESH)))
          else j.waiting)
  }

  // ----- Every step keeps the system sound -----

  ghost predicate ValidRows(rows: seq<Row>) {
    B.WellFormed(B.World(rows, map[], []))
  }

  lemma RowTakesAtMostOne(row: Row, known: Option<B.Slot>, at: nat, env: B.Env)
    requires ValidRow(row) && (known.Some? ==> B.ValidSlot(known.value))
    ensures B.Visit(row, known, at, env).row in {row, Obey(row, TakenElsewhere)}
  {
    hide B.Activating;
  }

  /** How a visit looks to the other connections: it takes at most one function change from the row. */
  lemma VisitTakesAtMostOne(w: B.World, i: nat, env: B.Env)
    requires B.WellFormed(w) && i < |w.rows|
    ensures var w1 := B.AfterVisit(w, i, env);
            && B.WellFormed(w1) && ValidRows(w1.rows)
            && (w1.rows == w.rows || w1.rows == w.rows[i := Obey(w.rows[i], TakenElsewhere)])
  {
    hide B.Visit, Obey;
    RowTakesAtMostOne(w.rows[i], B.SlotOf(w, w.rows[i].address), |w.log|, env);
    B.TakeKeepsWellFormed(w, B.Scan(i), env);
    assert w.rows[i := w.rows[i]] == w.rows;
  }

  lemma RowsChange(j: State, rows: seq<Row>, k: nat)
    requires WellFormed(j) && ValidRows(rows) && k < |j.connections|
    ensures B.WellFormed(Local(j.(rows := rows), k))
  {
    var w := Local(j, k);
    assert B.WellFormed(w);
  }

  /** What the visit of an attempt leaves behind in the slot memory. */
  lemma AttemptLeaves(w: B.World, i: nat, env: B.Env)
    requires B.WellFormed(w) && i < |w.rows| && AttemptOf(w, i, env).Some?
    ensures var t, a := AttemptOf(w, i, env).value, w.rows[i].address;
            && a in B.AfterVisit(w, i, env).slots
            && (t.phase == B.Active ==> t.data.Some? && B.Ready(t.slot))
            && t.phase in {B.Active, B.Failed, B.Occupied}
            && B.AfterVisit(w, i, env).slots[a]
                 == if env.crash(|w.log| + |t.events|) then t.slot else t.slot.(phase := t.phase)
  {
    hide B.Activating;
    var row := w.rows[i];
    B.AttemptIsValid(row.address, B.SlotOf(w, row.address).GetOr(B.FRESH), |w.log|, env);
  }

  /** The collector has seen one more report. */
  lemma ToldOneMore(told: seq<Told>, t: Told, n: nat)
    requires V.From(Reports(told), n) && t.report.client < n
    ensures Reports(told + [t]) == Reports(told) + [t.report] && V.From(Reports(told + [t]), n)
    ensures V.Run(Fresh(n), Reports(told + [t])) == V.Take(V.Run(Fresh(n), Reports(told)), t.report)
    ensures forall m :: 0 <= m < |told| && Honest(told, m, n) ==> Honest(told + [t], m, n)
    ensures Honest(told + [t], |told|, n) <==>
              && t.raised == Raises(V.Run(Fresh(n), Reports(told)), t.report)
              && (t.report.Succeeded? ==>
                    && t.learned.Some? && t.report.reply == ReplyOf(t.learned.value)
                    && (!t.raised ==> t.slot.phase == B.Active && B.Ready(t.slot)))
  {
    hide V.Take, Raises, ReplyOf, B.Ready;
    var more := Reports(told + [t]);
    assert more == Reports(told) + [t.report];
    assert more[..|told|] == Reports(told);
    forall m | 0 <= m < |told| && Honest(told, m, n) ensures Honest(told + [t], m, n) {
      assert more[..m] == Reports(told)[..m];
    }
  }

  lemma TellIsHonest(j: State, k: nat, sys: System)
    requires Sound(j, sys) && k < |sys.envs| && sys.row < |j.rows| && Agreed(j, k, sys.row, sys)
    requires j.waiting.Some? && AttemptOf(Local(j, k), sys.row, sys.envs[k]).Some?
    ensures Tracked(AfterVisit(j, k, sys.row, sys).waiting.value, |sys.envs|)
  {
    hide B.AfterVisit, Honest, V.Take, Fresh, AttemptOf, Reports, V.Run, V.From;
    var w, env, n := Local(j, k), sys.envs[k], |sys.envs|;
    var t, x := AttemptOf(w, sys.row, env).value, j.waiting.value;
    AttemptLeaves(w, sys.row, env);
    var report := ReportOf(k, t);
    var slot := B.AfterVisit(w, sys.row, env).slots[w.rows[sys.row].address];
    var told := Told(report, t.data, slot, Raises(x.collector, report));
    ToldOneMore(x.told, told, n);
    var x1 := AfterVisit(j, k, sys.row, sys).waiting.value;
    assert x1.told == x.told + [told];
  }

  /** What connection k sees of a step, as a step of its own. */
  ghost function Seen(j: State, s: Step, sys: System, k: nat): seq<B.Step>
    requires Sound(j, sys) && Possible(j, s, sys) && k < |sys.envs|
  {
    match s
    case AddRow(a) => [B.AddRow(a)]
    case Throttle(i, c) => [B.Throttle(i, c)]
    case Visit(l, i) =>
      if l == k then [B.Scan(i)]
      else if AfterVisit(j, l, i, sys).rows == j.rows then []
      else [B.Throttle(i, TakenElsewhere)]
    case Await => []
    case EndWait(timedOut) =>
      var slot := Adopted(j.waiting.value, timedOut);
      if slot.Some? then [B.Throttle(sys.row, Adopt(slot.value))] else []
  }

  /** What a waiting throttle adopts is the state of some slot. */
  lemma AdoptedIsRead(j: State, sys: System, timedOut: bool)
    requires Sound(j, sys) && j.waiting.Some? && Adopted(j.waiting.value, timedOut).Some?
    ensures exists d :: Adopted(j.waiting.value, timedOut).value == ReplyOf(d)
    ensures ValidCommand(Adopt(Adopted(j.waiting.value, timedOut).value))
  {
    hide WellFormed, V.Take, V.Run, Raises, V.From, ReplyOf;
    var x, n := j.waiting.value, |sys.envs|;
    V.SlotsWereReported(Fresh(n), Reports(x.told));
    var slot := Adopted(x, timedOut).value;
    var l: nat :| V.Succeeded(l, slot) in Reports(x.told);
    var m :| 0 <= m < |x.told| && Reports(x.told)[m] == V.Succeeded(l, slot);
    assert Honest(x.told, m, n);
    SpeedOfReply(x.told[m].learned.value);
  }

  lemma SpeedOfReply(d: SlotRead)
    ensures ValidCommand(Adopt(ReplyOf(d)))
  {
  }

  /** Every step of the whole is a step of each connection, or none. */
  lemma SeenIsTaken(j: State, s: Step, sys: System, k: nat)
    requires Sound(j, sys) && Possible(j, s, sys) && k < |sys.envs|
    ensures var j1, seen := Take(j, s, sys), Seen(j, s, sys, k);
            && |j1.connections| == |j.connections| && |seen| <= 1
            && (seen == [] ==> Local(j1, k) == Local(j, k))
            && (seen != [] ==> B.Possible(Local(j, k), seen[0])
                               && Local(j1, k) == B.Take(Local(j, k), seen[0], sys.envs[k]))
  {
    hide Honest, V.Take, V.Run, Raises, V.From, Reports, Obey, B.VisitOf, Tell, AttemptOf, Fresh, Adopted;
    match s
    case Visit(l, i) => VisitTakesAtMostOne(Local(j, l), i, sys.envs[l]);
    case EndWait(timedOut) =>
      if Adopted(j.waiting.value, timedOut).Some? { AdoptedIsRead(j, sys, timedOut); }
    case _ =>
  }

  lemma RowsStayValid(j: State, s: Step, sys: System)
    requires Sound(j, sys) && Possible(j, s, sys)
    ensures ValidRows(Take(j, s, sys).rows) && |j.rows| <= |Take(j, s, sys).rows|
  {
    hide Honest, V.Take, V.Run, Raises, V.From, Reports, Obey, B.VisitOf, Tell, AttemptOf, Fresh, Adopted;
    match s
    case Visit(l, i) => VisitTakesAtMostOne(Local(j, l), i, sys.envs[l]);
    case EndWait(timedOut) =>
      if Adopted(j.waiting.value, timedOut).Some? {
        AdoptedIsRead(j, sys, timedOut);
        ObeyKeepsValid(j.rows[sys.row], Adopt(Adopted(j.waiting.value, timedOut).value));
      }
    case Throttle(i, c) => ObeyKeepsValid(j.rows[i], c);
    case _ =>
  }

  lemma WaitStaysTracked(j: State, s: Step, sys: System)
    requires Sound(j, sys) && Possible(j, s, sys)
    ensures var x := Take(j, s, sys).waiting; x.Some? ==> Tracked(x.value, |sys.envs|)
    ensures Take(j, s, sys).waiting.Some? ==> sys.row < |j.rows| && |j.connections| == |Take(j, s, sys).connections|
  {
    hide V.Take, Raises, Obey, B.VisitOf, Tell, AttemptOf, Adopted, B.WellFormed, B.AfterVisit, Honest, ReportOf;
    hide B.Activating;
    if s.Visit? && s.row == sys.row && Take(j, s, sys).waiting != j.waiting {
      hide Tracked;
      TellIsHonest(j, s.client, sys);
    }
  }

  lemma TakeIsSound(j: State, s: Step, sys: System)
    requires Sound(j, sys) && Possible(j, s, sys)
    ensures Sound(Take(j, s, sys), sys)
  {
    hide Tracked, Obey, B.VisitOf, Tell, AttemptOf, Fresh, Adopted, B.WellFormed, B.Possible, B.Take;
    var j1 := Take(j, s, sys);
    RowsStayValid(j, s, sys);
    WaitStaysTracked(j, s, sys);
    forall k | 0 <= k < |j.connections| ensures B.WellFormed(Local(j1, k)) {
      SeenIsTaken(j, s, sys, k);
      var seen := Seen(j, s, sys, k);
      if seen != [] { B.TakeKeepsWellFormed(Local(j, k), seen[0], sys.envs[k]); }
    }
  }

  // ----- Runs -----

  ghost predicate IsRun(run: seq<Step>, sys: System)
    decreases |run|, 0
  {
    run == [] ||
    (IsRun(run[..|run| - 1], sys) && Possible(Exec(run[..|run| - 1], sys), run[|run| - 1], sys))
  }

  ghost function Start(sys: System): (j: State)
    ensures Sound(j, sys)
  {
    State([], seq(|sys.envs|, _ => Connection(map[], [])), None)
  }

  ghost function Exec(run: seq<Step>, sys: System): (j: State)
    requires IsRun(run, sys)
    ensures Sound(j, sys)
    decreases |run|, 1
  {
    if run == [] then Start(sys)
    else
      var j := Exec(run[..|run| - 1], sys);
      TakeIsSound(j, run[|run| - 1], sys);
      Take(j, run[|run| - 1], sys)
  }

  /** A run of the whole as connection k sees it. */
  ghost function Projected(run: seq<Step>, sys: System, k: nat): seq<B.Step>
    requires IsRun(run, sys) && k < |sys.envs|
  {
    if run == [] then []
    else
      var before := run[..|run| - 1];
      Projected(before, sys, k) + Seen(Exec(before, sys), run[|run| - 1], sys, k)
  }

  /**
   Each connection, whatever the others do, takes a run of the system with one connection. So all that
   holds in those runs holds for every connection here.
   */
  lemma {:induction false} ConnectionIsARun(run: seq<Step>, sys: System, k: nat)
    requires IsRun(run, sys) && k < |sys.envs|
    ensures B.IsRun(Projected(run, sys, k), sys.envs[k])
    ensures B.Exec(Projected(run, sys, k), sys.envs[k]) == Local(Exec(run, sys), k)
    decreases |run|
  {
    hide Sound, Possible, Take, Seen, B.Possible, B.Take, B.WellFormed, WellFormed;
    if run == [] { return; }
    var before, s := run[..|run| - 1], run[|run| - 1];
    ConnectionIsARun(before, sys, k);
    SeenIsTaken(Exec(before, sys), s, sys, k);
    var seen := Seen(Exec(before, sys), s, sys, k);
    if seen == [] {
      assert Projected(before, sys, k) + seen == Projected(before, sys, k);
    } else {
      assert seen == [seen[0]];
      B.OneMoreStep(Projected(before, sys, k), seen[0], sys.envs[k]);
    }
  }

  /** No station gets a frame out of turn, however many there are. */
  lemma EveryStationInTurn(run: seq<Step>, sys: System, k: nat, a: Address)
    requires IsRun(run, sys) && k < |sys.envs| && a.Valid()
    ensures T.Judge(T.Free, Exec(run, sys).connections[k].log, a) != T.Broken
    ensures T.Agrees(T.Judge(T.Free, Exec(run, sys).connections[k].log, a), B.SlotOf(Local(Exec(run, sys), k), a))
  {
    hide IsRun, Exec, T.Judge, T.Agrees, B.Exec, B.IsRun;
    ConnectionIsARun(run, sys, k);
    T.EveryFrameInTurn(Projected(run, sys, k), sys.envs[k], a);
  }

  // ----- What Success means -----

  /** The latest that connection k told. */
  function LastTold(told: seq<Told>, k: nat): Option<Told> {
    if told == [] then None
    else if told[|told| - 1].report.client == k then Some(told[|told| - 1])
    else LastTold(told[..|told| - 1], k)
  }

  lemma {:induction false} LastToldIsLatest(told: seq<Told>, k: nat)
    ensures var t := LastTold(told, k);
            && V.Latest(Reports(told), k) == (if t.Some? then Some(t.value.report) else None)
            && (t.Some? ==> exists m :: 0 <= m < |told| && told[m] == t.value)
  {
    if told != [] {
      assert Reports(told)[..|told| - 1] == Reports(told[..|told| - 1]);
      LastToldIsLatest(told[..|told| - 1], k);
    }
  }

  /**
   The latest that connection k told is a success: it reported what it had learned, met no exception, and
   held its slot right after.
   */
  predicate Granted(told: seq<Told>, k: nat) {
    var t := LastTold(told, k);
    && t.Some? && t.value.learned.Some? && t.value.report == V.Succeeded(k, ReplyOf(t.value.learned.value))
    && t.value.slot.phase == B.Active && B.Ready(t.value.slot) && !t.value.raised
  }

  /** All n connections hold their slots, and this is what the last of them learned. */
  predicate AllGranted(told: seq<Told>, n: nat, slot: Option<Reply>) {
    && n > 0 && (forall k: nat :: k < n ==> Granted(told, k))
    && Granted(told, n - 1) && slot == Some(ReplyOf(LastTold(told, n - 1).value.learned.value))
  }

  /** Up to the report that completes the set, reporting raises no exception. */
  lemma NothingRaisedBefore(x: Wait, n: nat, m: nat, e: nat)
    requires n > 0 && Tracked(x, n) && V.CompletesAt(Reports(x.told), n, m) && e < m
    ensures !x.told[e].raised
  {
    hide V.Take, V.Complete, V.Called, V.Latest;
    var rs := Reports(x.told);
    assert Honest(x.told, e, n);
    assert rs[..e + 1][..e] == rs[..e];
    assert V.Run(Fresh(n), rs[..e + 1]) == V.Take(V.Run(Fresh(n), rs[..e]), rs[e]);
    NoCrashUpTo(rs, n, m, e);
    NoCrashUpTo(rs, n, m, e + 1);
  }

  lemma NoCrashUpTo(rs: seq<V.Report>, n: nat, m: nat, e: nat)
    requires n > 0 && V.From(rs, n) && V.CompletesAt(rs, n, m) && e <= m
    ensures V.Run(Fresh(n), rs[..e]).crashes == 0
  {
    hide V.Complete, V.Called;
    if e == m {
      assert rs[..m][..m] == rs[..m] && rs[..m][..m - 1] == rs[..m - 1];
      V.AnswerGivenOnce(Fresh(n), rs[..m], m);
    } else {
      if V.Complete(rs[..e], n) {
        assert rs[..m - 1][..e] == rs[..e];
        V.StaysComplete(rs[..m - 1], n, e);
      }
      V.NoAnswerBefore(Fresh(n), rs[..e]);
    }
  }

  lemma TrackedSuccess(x: Wait, n: nat, slot: Option<Reply>) returns (m: nat)
    requires Tracked(x, n) && n > 0 && x.collector.answer == Some(V.Answer(V.Success, slot))
    ensures V.CompletesAt(Reports(x.told), n, m) && AllGranted(x.told[..m], n, slot)
  {
    hide V.Take, V.Latest, V.Complete, ReplyOf, Honest, LastTold;
    var rs := Reports(x.told);
    if !V.Complete(rs, n) { V.NoAnswerBefore(Fresh(n), rs); }
    m := V.FirstComplete(rs, n);
    V.AnswerGivenOnce(Fresh(n), rs, m);
    hide Tracked, V.Run;
    forall k: nat | k < n
      ensures Granted(x.told[..m], k)
      ensures V.Latest(rs[..m], k) == Some(V.Succeeded(k, ReplyOf(LastTold(x.told[..m], k).value.learned.value)))
    {
      CalledSuccess(rs[..m], n, k);
      GrantedWhenSucceeded(x, n, m, k);
    }
    assert V.Latest(rs[..m], n - 1).Some?;
  }

  /**
   Success means that every connection held its slot when it last reported before the answer, and the
   slot data handed out is what the last connection learned. This holds in every run, with releases and
   repeated reports too.
   */
  lemma SuccessMeansHeld(run: seq<Step>, sys: System, slot: Option<Reply>) returns (m: nat)
    requires IsRun(run, sys) && |sys.envs| > 0 && Exec(run, sys).waiting.Some?
    requires Exec(run, sys).waiting.value.collector.answer == Some(V.Answer(V.Success, slot))
    ensures var told := Exec(run, sys).waiting.value.told;
            V.CompletesAt(Reports(told), |sys.envs|, m) && AllGranted(told[..m], |sys.envs|, slot)
  {
    hide IsRun, Exec, WellFormed, Tracked, AllGranted;
    m := TrackedSuccess(Exec(run, sys).waiting.value, |sys.envs|, slot);
  }

  lemma CalledSuccess(rs: seq<V.Report>, n: nat, k: nat)
    requires n > 0 && V.Complete(rs, n) && V.Called(rs, n).result == V.Success && k < n
    ensures V.Latest(rs, k).Some? && V.Latest(rs, k).value.Succeeded?
  {
    assert !V.SomeLatest(rs, n, V.Failure) && !V.SomeLatest(rs, n, V.Occupied);
  }

  lemma GrantedWhenSucceeded(x: Wait, n: nat, m: nat, k: nat)
    requires n > 0 && Tracked(x, n) && V.CompletesAt(Reports(x.told), n, m) && k < n
    requires V.Latest(Reports(x.told)[..m], k).Some? && V.Latest(Reports(x.told)[..m], k).value.Succeeded?
    ensures Granted(x.told[..m], k)
    ensures V.Latest(Reports(x.told)[..m], k)
         == Some(V.Succeeded(k, ReplyOf(LastTold(x.told[..m], k).value.learned.value)))
  {
    hide V.Take, V.Complete, V.Called, ReplyOf, V.Latest, LastTold;
    var told := x.told[..m];
    assert Reports(told) == Reports(x.told)[..m];
    LastToldIsLatest(told, k);
    V.LatestIsAReport(Reports(told), k);
    var e :| 0 <= e < |told| && told[e] == LastTold(told, k).value;
    NothingRaisedBefore(x, n, m, e);
    assert Honest(x.told, e, n);
  }

  // ----- While the row stays wanted -----

  /** A slot in this phase is not attempted again while the row stays wanted. */
  predicate Settled(phase: B.Phase) {
    phase in {B.Active, B.Failed, B.Occupied}
  }

  /**
   Connection k has not reported, and its slot is as it was; or its slot was free to be attempted, and
   shows what was reported.
   */
  predicate InPlace(x: Wait, k: nat, phase: B.Phase)
    requires k < |x.before|
  {
    match V.Latest(Reports(x.told), k)
    case None => phase == x.before[k]
    case Some(r) => !Settled(x.before[k]) && phase == PhaseFor(r)
  }

  /** The row is awaited and was not released since the wait began. */
  predicate Wanted(j: State) {
    j.waiting.Some? && !j.waiting.value.released
  }

  /** As long as nobody releases the awaited row: each connection reports at most once, and its slot shows what. */
  ghost predicate Undisturbed(j: State, sys: System)
    requires Sound(j, sys)
  {
    Wanted(j) ==>
      var x := j.waiting.value;
      && j.rows[sys.row].active && V.OncePerClient(Reports(x.told))
      && forall k :: 0 <= k < |j.connections| ==> InPlace(x, k, Phases(j, sys.row)[k])
  }

  /** A visit without an attempt leaves the phase of a wanted row as it is. */
  lemma NoAttemptKeepsPhase(w: B.World, i: nat, env: B.Env)
    requires B.WellFormed(w) && i < |w.rows| && w.rows[i].active && AttemptOf(w, i, env).None?
    ensures var w1, a := B.AfterVisit(w, i, env), w.rows[i].address;
            && a in w.slots && a in w1.slots && w1.slots[a].phase == w.slots[a].phase && Settled(w.slots[a].phase)
  {
    hide B.Activating;
    var row := w.rows[i];
    var s := B.SlotOf(w, row.address).GetOr(B.FRESH);
    if s.phase == B.Active { B.OperateIsValid(row, s, |w.log|, env); }
    hide B.Operate;
  }

  /** A visit touches the slot of its own row only. */
  lemma VisitLeavesOthers(w: B.World, i: nat, env: B.Env, a: Address)
    requires B.WellFormed(w) && i < |w.rows| && a != w.rows[i].address
    ensures B.SlotOf(B.AfterVisit(w, i, env), a) == B.SlotOf(w, a)
    ensures forall l :: 0 <= l < |w.rows| ==> B.AfterVisit(w, i, env).rows[l].active == w.rows[l].active
  {
    hide B.Visit;
    B.VisitIsValid(w.rows[i], B.SlotOf(w, w.rows[i].address), |w.log|, env);
  }

  /** One more report of a connection that had not reported: no exception, and its slot shows the outcome. */
  lemma FirstReportRaisesNothing(told: seq<Told>, r: V.Report, n: nat)
    requires V.From(Reports(told), n) && V.OncePerClient(Reports(told)) && r.client < n
    requires V.Latest(Reports(told), r.client).None?
    ensures V.OncePerClient(Reports(told) + [r]) && !Raises(V.Run(Fresh(n), Reports(told)), r)
    ensures forall k: nat :: V.Latest(Reports(told) + [r], k)
                          == if k == r.client then Some(r) else V.Latest(Reports(told), k)
  {
    hide V.Take, Fresh;
    var rs := Reports(told);
    assert (rs + [r])[..|rs|] == rs;
    forall i | 0 <= i < |rs| ensures rs[i].client != r.client { HasReported(rs, i); }
    V.OnceNeverCrashes(Fresh(n), rs);
    V.OnceNeverCrashes(Fresh(n), rs + [r]);
  }

  lemma {:induction false} HasReported(rs: seq<V.Report>, i: nat)
    requires i < |rs|
    ensures V.Latest(rs, rs[i].client).Some?
  {
    if i < |rs| - 1 { HasReported(rs[..|rs| - 1], i); }
  }

  lemma AttemptKeepsInPlace(j: State, l: nat, sys: System)
    requires Sound(j, sys) && Undisturbed(j, sys) && l < |sys.envs| && sys.row < |j.rows|
    requires Agreed(j, l, sys.row, sys) && AttemptOf(Local(j, l), sys.row, sys.envs[l]).Some?
    requires Wanted(j)
    ensures var x := AfterVisit(j, l, sys.row, sys).waiting.value;
            && V.OncePerClient(Reports(x.told)) && |x.before| == |sys.envs|
            && (forall k :: 0 <= k < |sys.envs| && k != l ==> InPlace(x, k, Phases(j, sys.row)[k]))
            && InPlace(x, l, PhaseOf(AfterVisit(j, l, sys.row, sys).connections[l], j.rows[sys.row].address))
            && Settled(PhaseOf(AfterVisit(j, l, sys.row, sys).connections[l], j.rows[sys.row].address))
  {
    hide B.AfterVisit, Honest, V.Take, Fresh, AttemptOf, Reports, V.Run, V.From, V.OncePerClient, V.Latest;
    var w, env, x, n := Local(j, l), sys.envs[l], j.waiting.value, |sys.envs|;
    var t := AttemptOf(w, sys.row, env).value;
    AttemptLeaves(w, sys.row, env);
    assert InPlace(x, l, Phases(j, sys.row)[l]);
    AttemptNeedsRest(w, sys.row, env);
    var report := ReportOf(l, t);
    FirstReportRaisesNothing(x.told, report, n);
    var x1 := AfterVisit(j, l, sys.row, sys).waiting.value;
    ToldOneMore(x.told, x1.told[|x.told|], n);
    assert x1.told == x.told + [x1.told[|x.told|]];
    forall k | 0 <= k < n && k != l ensures InPlace(x1, k, Phases(j, sys.row)[k]) {
      assert InPlace(x, k, Phases(j, sys.row)[k]);
    }
  }

  lemma AttemptNeedsRest(w: B.World, i: nat, env: B.Env)
    requires B.WellFormed(w) && i < |w.rows| && AttemptOf(w, i, env).Some?
    ensures !Settled(B.SlotOf(w, w.rows[i].address).GetOr(B.FRESH).phase)
  {
  }

  lemma VisitKeepsUndisturbed(j: State, l: nat, i: nat, sys: System)
    requires Sound(j, sys) && Undisturbed(j, sys) && l < |sys.envs| && i < |j.rows| && Agreed(j, l, i, sys)
    requires Wanted(j) && Sound(AfterVisit(j, l, i, sys), sys)
    ensures Undisturbed(AfterVisit(j, l, i, sys), sys)
    ensures var phases, phases1 := Phases(j, sys.row), Phases(AfterVisit(j, l, i, sys), sys.row);
            && phases1 == phases[l := phases1[l]]
            && (Settled(phases[l]) || i == sys.row ==> Settled(phases1[l]))
  {
    hide B.AfterVisit, Honest, V.Take, Fresh, AttemptOf, Reports, V.Run, V.From, V.OncePerClient, V.Latest, Tell;
    hide Agreed;
    var w, j1, a := Local(j, l), AfterVisit(j, l, i, sys), j.rows[sys.row].address;
    VisitKeepsRows(w, i, sys.envs[l]);
    assert Phases(j1, sys.row) == Phases(j, sys.row)[l := PhaseOf(j1.connections[l], a)];
    if i == sys.row && AttemptOf(w, i, sys.envs[l]).Some? {
      AttemptKeepsInPlace(j, l, sys);
    } else {
      if i == sys.row {
        NoAttemptKeepsPhase(w, i, sys.envs[l]);
      } else {
        assert a != w.rows[i].address;
        VisitLeavesOthers(w, i, sys.envs[l], a);
      }
      assert j1.waiting == j.waiting && Phases(j1, sys.row) == Phases(j, sys.row);
      assert j1.rows[sys.row].active;
    }
  }

  lemma VisitKeepsRows(w: B.World, i: nat, env: B.Env)
    requires B.WellFormed(w) && i < |w.rows|
    ensures |B.AfterVisit(w, i, env).rows| == |w.rows|
    ensures forall l :: 0 <= l < |w.rows| ==>
              && B.AfterVisit(w, i, env).rows[l].active == w.rows[l].active
              && B.AfterVisit(w, i, env).rows[l].address == w.rows[l].address
  {
    hide B.Visit;
    B.VisitIsValid(w.rows[i], B.SlotOf(w, w.rows[i].address), |w.log|, env);
  }

  lemma CommandKeepsUndisturbed(j: State, s: Step, sys: System)
    requires Sound(j, sys) && Undisturbed(j, sys) && Possible(j, s, sys) && (s.AddRow? || s.Throttle?)
    requires Wanted(Take(j, s, sys))
    ensures Sound(Take(j, s, sys), sys) && Undisturbed(Take(j, s, sys), sys)
    ensures Wanted(j) && Phases(Take(j, s, sys), sys.row) == Phases(j, sys.row)
  {
    hide B.HasRow, Honest, Fresh, Reports, V.Run, V.From, V.OncePerClient, V.Latest, Settled, B.WellFormed;
    TakeIsSound(j, s, sys);
    var j1 := Take(j, s, sys);
    if s.Throttle? { CommandKeepsRow(j.rows[s.row], s.command); }
    assert j1.rows[sys.row].address == j.rows[sys.row].address;
    assert Phases(j1, sys.row) == Phases(j, sys.row);
    assert j1.rows[sys.row].active;
  }

  lemma CommandKeepsRow(row: Row, c: Command)
    ensures Obey(row, c).address == row.address
    ensures row.active && c != Release ==> Obey(row, c).active
  {
  }

  lemma StepKeepsUndisturbed(j: State, s: Step, sys: System)
    requires Sound(j, sys) && Undisturbed(j, sys) && Possible(j, s, sys)
    ensures Sound(Take(j, s, sys), sys) && Undisturbed(Take(j, s, sys), sys)
    ensures Wanted(Take(j, s, sys)) && s != Await ==>
              && Wanted(j) && sys.row < |j.rows|
              && var phases, phases1 := Phases(j, sys.row), Phases(Take(j, s, sys), sys.row);
                 && |phases| == |phases1|
                 && (forall k :: 0 <= k < |phases| && Settled(phases[k]) ==> Settled(phases1[k]))
                 && (s.Visit? && s.row == sys.row ==> Settled(phases1[s.client]))
  {
    hide B.AfterVisit, Honest, V.Take, AttemptOf, V.Run, V.From, V.OncePerClient, Agreed, B.HasRow, Settled;
    hide Obey, ReportOf, Raises;
    TakeIsSound(j, s, sys);
    if Wanted(Take(j, s, sys)) {
      match s
      case AddRow(_) => CommandKeepsUndisturbed(j, s, sys);
      case Throttle(_, _) => CommandKeepsUndisturbed(j, s, sys);
      case Visit(l, i) => VisitKeepsUndisturbed(j, l, i, sys);
      case Await => NothingToldYet();
      case EndWait(_) => assert false;
    }
  }

  lemma NothingToldYet()
    ensures Reports([]) == [] && V.OncePerClient([]) && forall k: nat :: V.Latest([], k) == None
  {
  }

  lemma {:induction false} RunIsUndisturbed(run: seq<Step>, sys: System)
    requires IsRun(run, sys)
    ensures Undisturbed(Exec(run, sys), sys)
    decreases |run|
  {
    hide Sound, Possible, Take, Undisturbed, Wanted, Phases;
    if run == [] {
      NotWaitingAtFirst(sys);
    } else {
      RunIsUndisturbed(run[..|run| - 1], sys);
      StepKeepsUndisturbed(Exec(run[..|run| - 1], sys), run[|run| - 1], sys);
    }
  }

  lemma NotWaitingAtFirst(sys: System)
    ensures Undisturbed(Start(sys), sys)
  {
  }

  // ----- The answer, told from the slots -----

  /** What slots that are all settled amount to. */
  function Outcome(phases: seq<B.Phase>): V.Result {
    if B.Failed in phases then V.Failure else if B.Occupied in phases then V.Occupied else V.Success
  }

  /** The wait can be answered: every slot was free to be attempted when it began, and has been since. */
  predicate Answerable(before: seq<B.Phase>, phases: seq<B.Phase>) {
    |before| == |phases| && forall k :: 0 <= k < |phases| ==> !Settled(before[k]) && Settled(phases[k])
  }

  lemma CalledIsOutcome(rs: seq<V.Report>, phases: seq<B.Phase>)
    requires |phases| > 0 && V.Complete(rs, |phases|)
    requires forall k: nat :: k < |phases| ==> phases[k] == PhaseFor(V.Latest(rs, k).value)
    ensures V.Called(rs, |phases|).result == Outcome(phases)
  {
    hide V.Latest;
    var n := |phases|;
    if B.Failed in phases {
      var k :| 0 <= k < n && phases[k] == B.Failed;
      assert V.ResultOf(V.Latest(rs, k).value) == V.Failure;
    } else if B.Occupied in phases {
      var k :| 0 <= k < n && phases[k] == B.Occupied;
      assert V.ResultOf(V.Latest(rs, k).value) == V.Occupied;
    }
  }

  lemma OnlyTheLastCompletes(rs: seq<V.Report>, n: nat, m: nat)
    requires n > 0 && V.OncePerClient(rs) && V.From(rs, n) && V.CompletesAt(rs, n, m)
    ensures m == |rs| && V.Complete(rs, n)
  {
    V.StaysComplete(rs, n, m);
    V.LastReportCompletes(rs, n);
    var before := rs[..|rs| - 1];
    if m < |rs| {
      assert before[..m] == rs[..m];
      V.StaysComplete(before, n, m);
    }
  }

  lemma AnswerOf(x: Wait, phases: seq<B.Phase>)
    requires |phases| > 0 && Tracked(x, |phases|) && V.OncePerClient(Reports(x.told))
    requires forall k: nat :: k < |phases| ==> InPlace(x, k, phases[k])
    ensures x.collector.crashes == 0
    ensures x.collector.answer.Some? <==> Answerable(x.before, phases)
    ensures x.collector.answer.Some? ==>
              && x.collector.answer.value.result == Outcome(phases)
              && (Outcome(phases) == V.Success ==> AllGranted(x.told, |phases|, x.collector.answer.value.slot))
  {
    hide V.Take, V.Latest, V.Run, V.Called, Honest, AllGranted, Outcome, V.Complete;
    var n, rs := |phases|, Reports(x.told);
    V.OnceNeverCrashes(Fresh(n), rs);
    CompleteIsAnswerable(x, phases);
    assert rs[..|rs|] == rs;
    if V.Complete(rs, n) {
      V.OneReportEach(Fresh(n), rs, |rs|);
      CalledIsOutcome(rs, phases);
      if Outcome(phases) == V.Success {
        var m := TrackedSuccess(x, n, x.collector.answer.value.slot);
        OnlyTheLastCompletes(rs, n, m);
        assert x.told[..m] == x.told;
      }
    } else {
      V.NoAnswerBefore(Fresh(n), rs);
    }
  }

  lemma CompleteIsAnswerable(x: Wait, phases: seq<B.Phase>)
    requires |x.before| == |phases|
    requires forall k: nat :: k < |phases| ==> InPlace(x, k, phases[k])
    ensures V.Complete(Reports(x.told), |phases|) <==> Answerable(x.before, phases)
    ensures V.Complete(Reports(x.told), |phases|) ==>
              forall k: nat :: k < |phases| ==> phases[k] == PhaseFor(V.Latest(Reports(x.told), k).value)
  {
    hide V.Latest;
    if !V.Complete(Reports(x.told), |phases|) {
      var k: nat :| k < |phases| && V.Latest(Reports(x.told), k).None?;
      assert InPlace(x, k, phases[k]);
    }
    forall k: nat | k < |phases| && V.Latest(Reports(x.told), k).Some?
      ensures !Settled(x.before[k]) && phases[k] == PhaseFor(V.Latest(Reports(x.told), k).value)
    {
      assert InPlace(x, k, phases[k]);
    }
  }

  /**
   While the row stays wanted, the collector says exactly what the slots show. There is an answer exactly
   when every slot was free to be attempted when the wait began and has been attempted since; it is
   Failure with a failed slot, otherwise Occupied with an occupied one, and Success exactly when all slots are
   Active at this very moment. Nobody meets an exception while reporting.
   */
  lemma AnswerTellsSlots(run: seq<Step>, sys: System)
    requires IsRun(run, sys) && |sys.envs| > 0 && Wanted(Exec(run, sys))
    ensures var j, x := Exec(run, sys), Exec(run, sys).waiting.value;
            && sys.row < |j.rows| && x.collector.crashes == 0
            && var phases, answer := Phases(j, sys.row), x.collector.answer;
               && (answer.Some? <==> Answerable(x.before, phases))
               && (answer.Some? ==>
                     && answer.value.result == Outcome(phases)
                     && (Outcome(phases) == V.Success <==> forall k :: 0 <= k < |phases| ==> phases[k] == B.Active)
                     && (Outcome(phases) == V.Success ==> AllGranted(x.told, |phases|, answer.value.slot)))
  {
    hide IsRun, Exec, Honest, InPlace, AllGranted, WellFormed, V.OncePerClient, V.Run, V.From, Phases;
    RunIsUndisturbed(run, sys);
    var j := Exec(run, sys);
    forall k: nat | k < |sys.envs| ensures InPlace(j.waiting.value, k, Phases(j, sys.row)[k]) {
    }
    AnswerOf(j.waiting.value, Phases(j, sys.row));
    if j.waiting.value.collector.answer.Some? { SuccessIsAllActive(Phases(j, sys.row)); }
  }

  lemma SuccessIsAllActive(phases: seq<B.Phase>)
    requires forall k :: 0 <= k < |phases| ==> Settled(phases[k])
    ensures Outcome(phases) == V.Success <==> forall k :: 0 <= k < |phases| ==> phases[k] == B.Active
  {
  }

  // ----- When the answer comes -----

  /** The connections that visited row i since a throttle last began to wait. */
  function Visitors(run: seq<Step>, i: nat): set<nat> {
    if run == [] then {}
    else
      var before := Visitors(run[..|run| - 1], i);
      match run[|run| - 1]
      case Await => {}
      case Visit(k, r) => if r == i then before + {k} else before
      case _ => before
  }

  lemma {:induction false} VisitedIsSettled(run: seq<Step>, sys: System, k: nat)
    requires IsRun(run, sys) && Wanted(Exec(run, sys)) && k in Visitors(run, sys.row) && k < |sys.envs|
    ensures sys.row < |Exec(run, sys).rows| && Settled(Phases(Exec(run, sys), sys.row)[k])
    decreases |run|
  {
    hide Possible, Take, Undisturbed, Settled, PhaseOf, WellFormed, Tracked;
    var before, s := run[..|run| - 1], run[|run| - 1];
    RunIsUndisturbed(before, sys);
    StepKeepsUndisturbed(Exec(before, sys), s, sys);
    if k in Visitors(before, sys.row) { VisitedIsSettled(before, sys, k); }
  }

  /**
   Once every connection has visited the awaited row, the wait is answered exactly when no slot was
   settled already when it began. A slot that was held then, or attempted in vain, never reports.
   */
  lemma AnswerComes(run: seq<Step>, sys: System)
    requires IsRun(run, sys) && |sys.envs| > 0 && Wanted(Exec(run, sys))
    requires forall k: nat :: k < |sys.envs| ==> k in Visitors(run, sys.row)
    ensures var x := Exec(run, sys).waiting.value;
            x.collector.answer.Some? <==> forall k :: 0 <= k < |x.before| ==> !Settled(x.before[k])
  {
    hide IsRun, Exec, Settled, AllGranted, Outcome, Visitors, Tracked, Phases;
    AnswerTellsSlots(run, sys);
    var x, phases := Exec(run, sys).waiting.value, Phases(Exec(run, sys), sys.row);
    forall k: nat | k < |phases| ensures Settled(phases[k]) {
      VisitedIsSettled(run, sys, k);
    }
    BeforeHasAll(run, sys);
  }

  lemma BeforeHasAll(run: seq<Step>, sys: System)
    requires IsRun(run, sys) && Exec(run, sys).waiting.Some?
    ensures |Exec(run, sys).waiting.value.before| == |sys.envs|
  {
    hide IsRun, Exec;
  }

  // ----- Waiting too late -----

  /** These steps begin no new wait. */
  predicate NoAwait(more: seq<Step>) {
    Await !in more
  }

  lemma OneMoreStep(run: seq<Step>, s: Step, sys: System)
    requires IsRun(run, sys) && Possible(Exec(run, sys), s, sys)
    ensures IsRun(run + [s], sys) && Exec(run + [s], sys) == Take(Exec(run, sys), s, sys)
  {
    hide Take, Possible, Sound;
    assert (run + [s])[..|run|] == run;
  }

  lemma BeforeStays(j: State, s: Step, sys: System)
    requires Sound(j, sys) && Possible(j, s, sys) && s != Await && Take(j, s, sys).waiting.Some?
    ensures j.waiting.Some? && Take(j, s, sys).waiting.value.before == j.waiting.value.before
  {
    hide Sound, B.AfterVisit, AttemptOf, B.HasRow, Obey;
  }

  lemma {:induction false} BeforeIsKept(run: seq<Step>, more: seq<Step>, sys: System)
    requires IsRun(run + [Await] + more, sys) && NoAwait(more) && Exec(run + [Await] + more, sys).waiting.Some?
    ensures IsRun(run, sys) && sys.row < |Exec(run, sys).rows|
    ensures Exec(run + [Await] + more, sys).waiting.value.before == Phases(Exec(run, sys), sys.row)
    decreases |more|
  {
    hide Sound, Take, Phases;
    var all := run + [Await] + more;
    if more == [] {
      assert all[..|all| - 1] == run && all[|all| - 1] == Await;
      AwaitNotesPhases(Exec(run, sys), sys);
    } else {
      assert all[..|all| - 1] == run + [Await] + more[..|more| - 1];
      BeforeStays(Exec(all[..|all| - 1], sys), more[|more| - 1], sys);
      BeforeIsKept(run, more[..|more| - 1], sys);
    }
  }

  lemma AwaitNotesPhases(j: State, sys: System)
    requires Sound(j, sys) && Possible(j, Await, sys)
    ensures Take(j, Await, sys).waiting.Some? && Take(j, Await, sys).waiting.value.before == Phases(j, sys.row)
  {
  }

  /**
   A wait that begins when the slot of some connection is settled already, be it that the send thread was
   faster or that another throttle has the row, gets no answer, whatever follows, until the row is
   released or the wait ends.
   */
  lemma TooLateForAnswer(run: seq<Step>, more: seq<Step>, sys: System, k: nat)
    requires IsRun(run + [Await] + more, sys) && NoAwait(more) && Wanted(Exec(run + [Await] + more, sys))
    requires k < |sys.envs| && IsRun(run, sys) && sys.row < |Exec(run, sys).rows|
    requires Settled(Phases(Exec(run, sys), sys.row)[k])
    ensures Exec(run + [Await] + more, sys).waiting.value.collector.answer.None?
  {
    hide IsRun, Exec, Sound, Settled, AllGranted, Outcome, Phases;
    AnswerTellsSlots(run + [Await] + more, sys);
    BeforeIsKept(run, more, sys);
    BeforeHasAll(run + [Await] + more, sys);
  }

  lemma WantedAtFirst(a: Address, sys: System)
    requires a.Valid()
    ensures var run := [AddRow(a)] + [Throttle(0, Acquire)];
            && IsRun(run, sys)
            && Exec(run, sys) == Start(sys).(rows := [NewRow(a).(active := true)])
  {
    hide IsRun, Exec, Sound, Start;
    StartsEmpty(sys);
    OneMoreStep([], AddRow(a), sys);
    assert [] + [AddRow(a)] == [AddRow(a)];
    OneMoreStep([AddRow(a)], Throttle(0, Acquire), sys);
  }

  lemma StartsEmpty(sys: System)
    ensures IsRun([], sys) && Exec([], sys) == Start(sys) && Start(sys).rows == [] && Start(sys).waiting == None
  {
  }

  lemma FirstVisitIsPossible(j: State, sys: System)
    requires Sound(j, sys) && sys.row == 0 && |sys.envs| == 1 && |j.rows| == 1 && forall n: nat :: !sys.envs[0].crash(n)
    requires j.rows[0].active && j.connections == [Connection(map[], [])]
    requires j.waiting.Some? ==> j.waiting.value.told == []
    ensures Phases(j, 0) == [B.Untouched] && !Settled(B.Untouched) && Possible(j, Visit(0, 0), sys)
    ensures var j1 := AfterVisit(j, 0, 0, sys);
            && |j1.rows| == 1 && j1.rows[0].active && Settled(Phases(j1, 0)[0])
            && j1.waiting.Some? == j.waiting.Some?
            && (j.waiting.Some? ==> j1.waiting.value.before == j.waiting.value.before
                                    && j1.waiting.value.released == j.waiting.value.released)
  {
    hide V.Take, Fresh, B.Activating;
    var w, env := Local(j, 0), sys.envs[0];
    AttemptLeaves(w, 0, env);
    NothingToldYet();
    if j.waiting.Some? {
      FirstReportRaisesNothing([], ReportOf(0, AttemptOf(w, 0, env).value), 1);
    }
  }

  /**
   Both happen: with one connection that reports whatever it finds, a throttle that waits before the
   visit is answered by it; one that waits after the visit meets a settled slot.
   */
  lemma PromptOrTooLate(a: Address, sys: System)
    requires a.Valid() && sys.row == 0 && |sys.envs| == 1 && forall n: nat :: !sys.envs[0].crash(n)
    ensures var run := [AddRow(a)] + [Throttle(0, Acquire)];
            var prompt, late := run + [Await] + [Visit(0, 0)], run + [Visit(0, 0)];
            && IsRun(prompt, sys) && Wanted(Exec(prompt, sys))
            && Exec(prompt, sys).waiting.value.collector.answer.Some?
            && IsRun(late + [Await], sys) && Wanted(Exec(late + [Await], sys))
            && |Exec(late, sys).rows| == 1 && Settled(Phases(Exec(late, sys), 0)[0])
  {
    hide IsRun, Exec, Sound, B.Activating, V.Take, V.Run, Settled, PhaseOf;
    var run := [AddRow(a)] + [Throttle(0, Acquire)];
    WantedAtFirst(a, sys);
    OneMoreStep(run, Await, sys);
    FirstVisitIsPossible(Exec(run + [Await], sys), sys);
    OneMoreStep(run + [Await], Visit(0, 0), sys);
    assert 0 in Visitors(run + [Await] + [Visit(0, 0)], 0);
    AnswerComes(run + [Await] + [Visit(0, 0)], sys);
    FirstVisitIsPossible(Exec(run, sys), sys);
    OneMoreStep(run, Visit(0, 0), sys);
    OneMoreStep(run + [Visit(0, 0)], Await, sys);
  }
}
