/**
 Once throttles stop changing rows and reporting raises no exception, the send loop runs out of
 work: a weight over all rows drops on every pass that finds something to do.
 */
module Convergence {
  import opened Wrappers
  import opened Bits
  import opened Frames
  import opened Rows
  import opened SlotBridge
  import F = Functions

  /** From event number k on, reporting raises no exception. */
  ghost predicate CalmFrom(env: Env, k: nat) {
    forall n :: k <= n ==> !env.crash(n)
  }

  // ----- What is left to do for one row -----

  /** A pending stop costs two visits: the stop itself, and the speed it overwrote. */
  function OperateWeight(row: Row, s: Slot): nat
    requires Ready(s) && IsSpeed(row.speed)
  {
    (if row.stops != s.stops then 2 else 0)
    + (if s.speed.value != SpeedByte(row.speed) then 1 else 0)
    + (if DirectionOf(s.dirf.value) != row.direction then 1 else 0)
    + |row.functions.queue|
  }

  function RowWeight(row: Row, known: Option<Slot>): nat
    requires ValidRow(row) && (known.Some? ==> ValidSlot(known.value))
  {
    match known.GetOr(FRESH).phase
    case Untouched | Inactive => if row.active then 5 + |row.functions.queue| else 0
    case Active => if row.active then OperateWeight(row, known.value) else 1
    case Failed | Occupied => if row.active then 0 else 1
  }

  lemma FunctionKeepsRest(row: Row, s: Slot, f: F.FunctionState, at: nat, env: Env)
    requires Ready(s)
    ensures var v := SendFunction(row, s, f, at, env);
            && v.slot.Some? && Ready(v.slot.value) && v.row == row && v.found
            && v.slot.value.stops == s.stops && v.slot.value.speed == s.speed
            && DirectionOf(v.slot.value.dirf.value) == DirectionOf(s.dirf.value)
  {
    FunctionWriteIsLocal(s.dirf.value, s.snd.value, f.number, f.isOn, 0);
    hide With, DirfMask, SndMask, DirectionOf;
  }

  lemma DirectionIsReached(s: Slot, d: Direction)
    requires Ready(s)
    ensures With(s.dirf.value, DIR, d != Forward) <= 127
    ensures DirectionOf(With(s.dirf.value, DIR, d != Forward)) == d
  {
    DirectionWriteIsLocal(s.dirf.value, 0, d != Forward, 0);
  }

  predicate PaysOff(row: Row, s: Slot, v: Visited)
    requires Ready(s) && IsSpeed(row.speed)
  {
    && v.slot.Some? && Ready(v.slot.value) && v.row == row.(functions := v.row.functions)
    && v.row.functions.known == row.functions.known
    && (if OperateWeight(row, s) == 0 then v == Visited(row, Some(s), [], false, false)
        else v.found && OperateWeight(v.row, v.slot.value) < OperateWeight(row, s))
  }

  /** Operating lowers the weight whenever there is any, and does nothing when there is none. */
  lemma OperatingPaysOff(row: Row, s: Slot, at: nat, env: Env)
    requires ValidRow(row) && Ready(s)
    ensures PaysOff(row, s, Operate(row, s, at, env))
  {
    hide With, DirfMask, SndMask, SpeedByte, DirectionOf, SendFunction;
    if row.stops == s.stops && s.speed.value == SpeedByte(row.speed) {
      if DirectionOf(s.dirf.value) != row.direction {
        DirectionIsReached(s, row.direction);
      } else if row.functions.queue != [] {
        var row1 := row.(functions := F.Apply(row.functions, F.Dequeue));
        FunctionKeepsRest(row1, s, row.functions.queue[0], at, env);
      }
    }
  }

  /** A visit lowers the row's weight whenever there is any, and does nothing when there is none. */
  lemma VisitPaysOff(row: Row, known: Option<Slot>, at: nat, env: Env)
    requires ValidRow(row) && (known.Some? ==> ValidSlot(known.value)) && CalmFrom(env, at)
    ensures var v := Visit(row, known, at, env);
            && ValidRow(v.row) && (v.slot.Some? ==> ValidSlot(v.slot.value))
            && !v.crashed && v.row == row.(functions := v.row.functions)
            && v.row.functions.known == row.functions.known
            && (if RowWeight(row, known) == 0
                then v.row == row && v.events == [] && !v.found && v.slot == known
                else v.found && RowWeight(v.row, v.slot) < RowWeight(row, known))
  {
    var s := known.GetOr(FRESH);
    VisitIsValid(row, known, at, env);
    if s.phase == Active && row.active {
      OperatingPaysOff(row, s, at, env);
    } else if row.active {
      AttemptIsValid(row.address, s, at, env);
    }
    hide Operate, Activating;
  }

  // ----- All rows -----

  ghost function WeightOf(w: World, i: nat): nat
    requires WellFormed(w) && i < |w.rows|
  {
    RowWeight(w.rows[i], SlotOf(w, w.rows[i].address))
  }

  /** Work left in the first k rows. */
  ghost function Total(w: World, k: nat): nat
    requires WellFormed(w) && k <= |w.rows|
  {
    if k == 0 then 0 else Total(w, k - 1) + WeightOf(w, k - 1)
  }

  ghost function Weight(w: World): nat
    requires WellFormed(w)
  {
    Total(w, |w.rows|)
  }

  /** Rows keep what throttles asked of them, every function included; only queue entries are used up. */
  ghost predicate SameRequests(w: World, w1: World) {
    && |w1.rows| == |w.rows|
    && forall i :: 0 <= i < |w.rows| ==>
         && w1.rows[i] == w.rows[i].(functions := w1.rows[i].functions)
         && w1.rows[i].functions.known == w.rows[i].functions.known
  }

  lemma OthersKeepWeight(w: World, i: nat, env: Env)
    requires WellFormed(w) && i < |w.rows|
    ensures var w1 := AfterVisit(w, i, env);
            WellFormed(w1) && forall j: nat :: j < |w.rows| && j != i ==> WeightOf(w1, j) == WeightOf(w, j)
  {
    hide Visit, RowWeight, ValidSlot, Sendable;
    VisitIsValid(w.rows[i], SlotOf(w, w.rows[i].address), |w.log|, env);
    TakeKeepsWellFormed(w, Scan(i), env);
    var w1 := AfterVisit(w, i, env);
    forall j: nat | j < |w.rows| && j != i ensures WeightOf(w1, j) == WeightOf(w, j) {
      if j < i { assert w.rows[j].address != w.rows[i].address; }
      if i < j { assert w.rows[i].address != w.rows[j].address; }
    }
  }

  lemma VisitIsConfined(w: World, i: nat, env: Env)
    requires WellFormed(w) && i < |w.rows| && CalmFrom(env, |w.log|)
    ensures var w1, v := AfterVisit(w, i, env), VisitOf(w, i, env);
            && WellFormed(w1) && SameRequests(w, w1) && !v.crashed && |w.log| <= |w1.log|
            && (forall j: nat :: j < |w.rows| && j != i ==> WeightOf(w1, j) == WeightOf(w, j))
            && (if WeightOf(w, i) == 0 then w1 == w && !v.found else v.found && WeightOf(w1, i) < WeightOf(w, i))
  {
    hide Visit, RowWeight, ValidSlot, Sendable;
    var row, known := w.rows[i], SlotOf(w, w.rows[i].address);
    VisitPaysOff(row, known, |w.log|, env);
    VisitIsValid(row, known, |w.log|, env);
    OthersKeepWeight(w, i, env);
    if WeightOf(w, i) == 0 {
      var w1 := AfterVisit(w, i, env);
      assert w1.rows == w.rows && w1.slots == w.slots && w1.log == w.log;
    }
  }

  lemma {:induction false} TotalShifts(w: World, w1: World, i: nat, k: nat)
    requires WellFormed(w) && WellFormed(w1) && |w1.rows| == |w.rows| && i < |w.rows| && k <= |w.rows|
    requires forall j: nat :: j < |w.rows| && j != i ==> WeightOf(w1, j) == WeightOf(w, j)
    ensures Total(w1, k) - Total(w, k) == if k <= i then 0 else WeightOf(w1, i) - WeightOf(w, i)
  {
    hide WeightOf, WellFormed;
    if k > 0 { TotalShifts(w, w1, i, k - 1); }
  }

  lemma VisitLowersWeight(w: World, i: nat, env: Env)
    requires WellFormed(w) && i < |w.rows| && CalmFrom(env, |w.log|)
    ensures var w1, v := AfterVisit(w, i, env), VisitOf(w, i, env);
            && WellFormed(w1) && SameRequests(w, w1) && !v.crashed && |w.log| <= |w1.log|
            && (if v.found then Weight(w1) < Weight(w) else w1 == w && WeightOf(w, i) == 0)
  {
    hide WellFormed, WeightOf, AfterVisit, VisitOf;
    VisitIsConfined(w, i, env);
    TotalShifts(w, AfterVisit(w, i, env), i, |w.rows|);
  }

  /** A full pass lowers the weight if it finds work; if not, it changes nothing and no work is left. */
  lemma {:induction false} PassLowersWeight(w: World, i: nat, polls: nat, env: Env)
    requires WellFormed(w) && i <= |w.rows| && |w.rows| - i <= polls && CalmFrom(env, |w.log|)
    ensures var r := ScanFrom(w, i, polls, env);
            && !r.stopped && !r.crashed && r.polls == polls - (|w.rows| - i)
            && SameRequests(w, r.world) && |w.log| <= |r.world.log|
            && (if r.found then Weight(r.world) < Weight(w)
                else r.world == w && forall j: nat :: i <= j < |w.rows| ==> WeightOf(w, j) == 0)
    decreases |w.rows| - i
  {
    hide WellFormed, WeightOf, AfterVisit, VisitOf, ScanFrom, Total;
    ScanUnfolds(w, i, polls, env);
    if i < |w.rows| {
      VisitLowersWeight(w, i, env);
      PassLowersWeight(AfterVisit(w, i, env), i + 1, polls - 1, env);
    }
  }

  /** Nothing left to do anywhere. */
  ghost predicate Idle(w: World)
    requires WellFormed(w)
  {
    forall i: nat :: i < |w.rows| ==> WeightOf(w, i) == 0
  }

  /** What it means for row i to be served, in terms of the row and its slot. */
  ghost predicate Served(w: World, i: nat)
    requires i < |w.rows| && WellFormed(w)
  {
    var row, known := w.rows[i], SlotOf(w, w.rows[i].address);
    if row.active then
      && known.Some? && known.value.phase in {Active, Failed, Occupied}
      && (known.value.phase == Active ==>
            && known.value.stops == row.stops
            && known.value.speed == Some(SpeedByte(row.speed))
            && DirectionOf(known.value.dirf.value) == row.direction
            && row.functions.queue == [])
    else
      known.Some? ==> known.value.phase in {Untouched, Inactive}
  }

  lemma IdleMeansServed(w: World, i: nat)
    requires WellFormed(w) && i < |w.rows|
    ensures WeightOf(w, i) == 0 <==> Served(w, i)
  {
    hide SpeedByte, DirectionOf;
  }

  lemma {:induction false} IdleStays(w: World, polls: nat, env: Env)
    requires WellFormed(w) && Idle(w) && CalmFrom(env, |w.log|)
    ensures Operation(w, polls, env) == Ended(w, false)
    decreases polls
  {
    hide WellFormed, WeightOf, ScanFrom;
    if polls > 0 {
      IdlePass(w, 0, polls - 1, env);
      if |w.rows| <= polls - 1 { IdleStays(w, polls - 1 - |w.rows|, env); }
    }
  }

  lemma {:induction false} IdlePass(w: World, i: nat, polls: nat, env: Env)
    requires WellFormed(w) && Idle(w) && i <= |w.rows| && CalmFrom(env, |w.log|)
    ensures var stopped := polls < |w.rows| - i;
            ScanFrom(w, i, polls, env)
              == Scanned(w, if stopped then 0 else polls - (|w.rows| - i), false, stopped, false)
    decreases |w.rows| - i
  {
    hide WellFormed, WeightOf, AfterVisit, VisitOf, ScanFrom;
    ScanUnfolds(w, i, polls, env);
    if i < |w.rows| && polls > 0 {
      VisitIsConfined(w, i, env);
      IdlePass(w, i + 1, polls - 1, env);
    }
  }

  lemma {:induction false} WorkRunsOut(w: World, passes: nat, polls: nat, env: Env)
    requires WellFormed(w) && CalmFrom(env, |w.log|)
    requires Weight(w) < passes && passes * (|w.rows| + 1) <= polls
    ensures var r := Operation(w, polls, env);
            !r.crashed && SameRequests(w, r.world) && Idle(r.world)
    decreases passes
  {
    hide WellFormed, WeightOf, ScanFrom, Total;
    var n := |w.rows| + 1;
    assert passes * n == (passes - 1) * n + n;
    assert (passes - 1) * n >= 0;
    PassLowersWeight(w, 0, polls - 1, env);
    var r := ScanFrom(w, 0, polls - 1, env);
    if r.found {
      WorkRunsOut(r.world, passes - 1, r.polls, env);
    } else {
      IdleStays(w, r.polls, env);
    }
  }

  /**
   From any well-formed state, with rows left alone, the send loop comes to rest: after at most
   (weight + 1) passes every row is served, and it stays so however long the loop goes on.
   */
  lemma NormalOperationConverges(w: World, polls: nat, env: Env)
    requires WellFormed(w) && CalmFrom(env, |w.log|)
    requires (Weight(w) + 1) * (|w.rows| + 1) <= polls
    ensures var r := Operation(w, polls, env);
            && !r.crashed && SameRequests(w, r.world)
            && forall i: nat :: i < |w.rows| ==> Served(r.world, i)
  {
    WorkRunsOut(w, Weight(w) + 1, polls, env);
    var w1 := Operation(w, polls, env).world;
    hide Served, WeightOf, WellFormed, Operation;
    forall i: nat | i < |w1.rows| ensures Served(w1, i) {
      IdleMeansServed(w1, i);
    }
  }

  // ----- One pass aligns every state with the row's activity flag -----

  ghost predicate Aligned(w: World, i: nat)
    requires i < |w.rows|
  {
    var row, known := w.rows[i], SlotOf(w, w.rows[i].address);
    if row.active then known.Some? && known.value.phase in {Active, Failed, Occupied}
    else known.Some? ==> known.value.phase in {Untouched, Inactive}
  }

  function PhaseOf(w: World, a: Address): Phase {
    SlotOf(w, a).GetOr(FRESH).phase
  }

  lemma VisitAligns(w: World, i: nat, env: Env)
    requires WellFormed(w) && i < |w.rows| && CalmFrom(env, |w.log|)
    ensures var w1 := AfterVisit(w, i, env);
            && WellFormed(w1) && |w1.rows| == |w.rows| && !VisitOf(w, i, env).crashed && |w.log| <= |w1.log|
            && Aligned(w1, i)
            && (forall j: nat :: j < |w.rows| && j != i && Aligned(w, j) ==> Aligned(w1, j))
            && (Aligned(w, i) ==> forall a :: PhaseOf(w1, a) == PhaseOf(w, a))
  {
    var row, known := w.rows[i], SlotOf(w, w.rows[i].address);
    VisitPaysOff(row, known, |w.log|, env);
    PhaseAfterVisit(row, known, |w.log|, env);
    TakeKeepsWellFormed(w, Scan(i), env);
    hide Visit, RowWeight, ValidSlot, Sendable;
    var w1 := AfterVisit(w, i, env);
    forall j: nat | j < |w.rows| && j != i && Aligned(w, j) ensures Aligned(w1, j) {
      if j < i { assert w.rows[j].address != w.rows[i].address; }
      if i < j { assert w.rows[i].address != w.rows[j].address; }
    }
  }

  lemma PhaseAfterVisit(row: Row, known: Option<Slot>, at: nat, env: Env)
    requires ValidRow(row) && (known.Some? ==> ValidSlot(known.value)) && CalmFrom(env, at)
    ensures var v := Visit(row, known, at, env);
            var before := known.GetOr(FRESH).phase;
            && (row.active ==> v.slot.Some? && v.slot.value.phase in {Active, Failed, Occupied})
            && (!row.active && v.slot.Some? ==> v.slot.value.phase in {Untouched, Inactive})
            && (row.active && before in {Active, Failed, Occupied} ==> v.slot.value.phase == before)
            && (!row.active && before in {Untouched, Inactive} ==> v.slot.GetOr(FRESH).phase == before)
  {
    var s := known.GetOr(FRESH);
    if s.phase == Active && row.active {
      OperateIsValid(row, s, at, env);
    } else if row.active {
      AttemptIsValid(row.address, s, at, env);
    }
    hide Operate, Activating;
  }

  /** After one full pass every state matches its row's activity flag. */
  lemma {:induction false} OnePassAligns(w: World, i: nat, polls: nat, env: Env)
    requires WellFormed(w) && i <= |w.rows| && |w.rows| - i <= polls && CalmFrom(env, |w.log|)
    requires forall j: nat :: j < i ==> Aligned(w, j)
    ensures var w1 := ScanFrom(w, i, polls, env).world;
            forall j: nat :: j < |w.rows| ==> Aligned(w1, j)
    decreases |w.rows| - i
  {
    hide WellFormed, Aligned, AfterVisit, VisitOf, ScanFrom;
    ScanUnfolds(w, i, polls, env);
    if i < |w.rows| {
      VisitAligns(w, i, env);
      OnePassAligns(AfterVisit(w, i, env), i + 1, polls - 1, env);
    }
  }

  /** A further pass changes no state any more. */
  lemma {:induction false} SecondPassChangesNoState(w: World, i: nat, polls: nat, env: Env)
    requires WellFormed(w) && i <= |w.rows| && CalmFrom(env, |w.log|)
    requires forall j: nat :: j < |w.rows| ==> Aligned(w, j)
    ensures forall a :: PhaseOf(ScanFrom(w, i, polls, env).world, a) == PhaseOf(w, a)
    decreases |w.rows| - i
  {
    hide WellFormed, Aligned, AfterVisit, VisitOf, ScanFrom, PhaseOf;
    ScanUnfolds(w, i, polls, env);
    if i < |w.rows| && polls > 0 {
      VisitAligns(w, i, env);
      SecondPassChangesNoState(AfterVisit(w, i, env), i + 1, polls - 1, env);
    }
  }
}
