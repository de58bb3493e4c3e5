/** No emergency stop gets lost between two visits of the send thread. */
module EmergencyStop {
  import opened Wrappers
  import opened Bits
  import opened Frames
  import opened Rows
  import opened SlotBridge
  import opened CommandStation

  const WRAP := 0x1_0000_0000

  /** The next visit of row i operates its slot. */
  predicate Operates(w: World, i: nat) {
    && i < |w.rows| && w.rows[i].active
    && w.rows[i].address in w.slots && w.slots[w.rows[i].address].phase == Active
  }

  /** Stop requests for row i (stops and releases) since its slot was last operated. */
  ghost function StopsSince(run: seq<Step>, env: Env, i: nat): nat
    requires IsRun(run, env)
  {
    if run == [] then 0
    else
      var before, step := run[..|run| - 1], run[|run| - 1];
      var n := StopsSince(before, env, i);
      match step
      case Throttle(j, c) => if j == i && IsStopRequest(c) then n + 1 else n
      case Scan(j) => if j == i && Operates(Exec(before, env), i) then 0 else n
      case AddRow(_) => n
  }

  /** Stop requests for row i up to the visit that last operated its slot. */
  ghost function StopsSeen(run: seq<Step>, env: Env, i: nat): nat
    requires IsRun(run, env)
  {
    if run == [] then 0
    else
      var before, step := run[..|run| - 1], run[|run| - 1];
      StopsSeen(before, env, i)
        + if step == Scan(i) && Operates(Exec(before, env), i) then StopsSince(before, env, i) else 0
  }

  /** What the slot memory believes the counter to be; zero before there is one. */
  function Mirror(w: World, i: nat): Int32
    requires i < |w.rows|
  {
    SlotOf(w, w.rows[i].address).GetOr(FRESH).stops
  }

  lemma NoRowNoStops(run: seq<Step>, env: Env, i: nat)
    requires IsRun(run, env) && |Exec(run, env).rows| <= i
    ensures StopsSince(run, env, i) == 0 && StopsSeen(run, env, i) == 0
    decreases |run|
  {
    if run != [] {
      var before := run[..|run| - 1];
      TakeKeepsWellFormed(Exec(before, env), run[|run| - 1], env);
      NoRowNoStops(before, env, i);
    }
  }

  /** How a visit moves the mirror of a row: only operating moves it, and then to the counter. */
  lemma VisitMovesMirror(row: Row, known: Option<Slot>, at: nat, env: Env)
    requires ValidRow(row) && (known.Some? ==> ValidSlot(known.value))
    ensures var v := Visit(row, known, at, env);
            && v.row.stops == row.stops
            && v.slot.GetOr(FRESH).stops
                 == if known.Some? && known.value.phase == Active && row.active then row.stops
                    else known.GetOr(FRESH).stops
  {
    var s := known.GetOr(FRESH);
    VisitIsValid(row, known, at, env);
    if s.phase == Active && row.active { OperateIsValid(row, s, at, env); }
    AttemptIsValid(row.address, s, at, env);
  }

  /** What one step does to the two counters of row i. */
  lemma StepMovesCounters(w: World, step: Step, env: Env, i: nat)
    requires WellFormed(w) && Possible(w, step) && i < |w.rows|
    ensures WellFormed(Take(w, step, env)) && i < |Take(w, step, env).rows|
    ensures Take(w, step, env).rows[i].stops
         == if step.Throttle? && step.row == i && IsStopRequest(step.command) then Increment(w.rows[i].stops)
            else w.rows[i].stops
    ensures Mirror(Take(w, step, env), i)
         == if step == Scan(i) && Operates(w, i) then w.rows[i].stops else Mirror(w, i)
  {
    TakeKeepsWellFormed(w, step, env);
    if step.Scan? {
      var row, known := w.rows[step.row], SlotOf(w, w.rows[step.row].address);
      VisitMovesMirror(row, known, |w.log|, env);
      VisitIsValid(row, known, |w.log|, env);
      hide Visit, ValidSlot, Sendable;
      if step.row < i { assert w.rows[step.row].address != w.rows[i].address; }
      if i < step.row { assert w.rows[i].address != w.rows[step.row].address; }
    }
  }

  /** Slot memories exist only for addresses of rows. */
  lemma {:induction false} NewRowHasNoSlot(run: seq<Step>, env: Env, a: Address)
    requires IsRun(run, env) && !HasRow(Exec(run, env), a)
    ensures a !in Exec(run, env).slots
    decreases |run|
  {
    if run != [] {
      var before, step := run[..|run| - 1], run[|run| - 1];
      var w := Exec(before, env);
      TakeKeepsWellFormed(w, step, env);
      forall i | 0 <= i < |w.rows| ensures w.rows[i].address != a {
        assert Exec(run, env).rows[i].address == w.rows[i].address;
      }
      NewRowHasNoSlot(before, env, a);
      if step.Scan? {
        VisitIsValid(w.rows[step.row], SlotOf(w, w.rows[step.row].address), |w.log|, env);
        assert w.rows[step.row].address != a;
      }
    }
  }

  lemma OnlyAddingAddsRows(w: World, s: Step, env: Env)
    requires WellFormed(w) && Possible(w, s) && |w.rows| < |Take(w, s, env).rows|
    ensures s.AddRow? && !HasRow(w, s.address) && Take(w, s, env) == w.(rows := w.rows + [NewRow(s.address)])
  {
    hide VisitOf, Obey, HasRow;
  }

  /** A row starts with both counters at zero. */
  lemma CountersAtFirst(run: seq<Step>, env: Env, i: nat)
    requires IsRun(run, env) && run != [] && |Exec(run[..|run| - 1], env).rows| <= i < |Exec(run, env).rows|
    ensures StopsSince(run, env, i) == 0 && StopsSeen(run, env, i) == 0
    ensures Exec(run, env).rows[i].stops == 0 && Mirror(Exec(run, env), i) == 0
  {
    hide Take, WellFormed, Possible, HasRow, Operates;
    var before, step := run[..|run| - 1], run[|run| - 1];
    OnlyAddingAddsRows(Exec(before, env), step, env);
    NoRowNoStops(before, env, i);
    NewRowHasNoSlot(before, env, step.address);
  }

  /** The row counts every request; the slot memory knows those seen when it was last operated. */
  lemma {:induction false} CountersTell(run: seq<Step>, env: Env, i: nat)
    requires IsRun(run, env) && i < |Exec(run, env).rows|
    ensures Exec(run, env).rows[i].stops == Counter(StopsSeen(run, env, i) + StopsSince(run, env, i))
    ensures Mirror(Exec(run, env), i) == Counter(StopsSeen(run, env, i))
    decreases |run|
  {
    hide Take, WellFormed, Mirror, Counter, Operates, Possible;
    CounterSteps(0);
    var before, step := run[..|run| - 1], run[|run| - 1];
    if i >= |Exec(before, env).rows| {
      CountersAtFirst(run, env, i);
    } else {
      CountersTell(before, env, i);
      CounterSteps(StopsSeen(before, env, i) + StopsSince(before, env, i));
      StepMovesCounters(Exec(before, env), step, env, i);
    }
  }

  /**
   The next time the slot is operated, the counters differ exactly when a stop was requested since
   the last time (a multiple of 2^32 requests, which brings the counter round, aside). Then the only
   frame is LocoSpd 1: pending speed, direction and functions wait, and none of them is consumed.
   */
  lemma StopComesFirst(run: seq<Step>, env: Env, i: nat)
    requires IsRun(run, env) && Operates(Exec(run, env), i)
    ensures var w := Exec(run, env);
            var slot := w.slots[w.rows[i].address];
            var v := VisitOf(w, i, env);
            && (w.rows[i].stops != slot.stops <==> StopsSince(run, env, i) % WRAP != 0)
            && (StopsSince(run, env, i) % WRAP != 0 ==>
                  && v.events == [Send(w.rows[i].address, LocoSpd(slot.number.value, 1), |w.log|, env)]
                  && v.row == w.rows[i]
                  && v.slot == Some(slot.(stops := w.rows[i].stops, speed := Some(1))))
  {
    hide Counter, SpeedByte, With, SendFunction, SendDirf, DirectionOf, StopsSeen, StopsSince, Exec, IsRun;
    CountersTell(run, env, i);
    CountersAgree(StopsSeen(run, env, i), StopsSeen(run, env, i) + StopsSince(run, env, i));
  }

  /** In every state, row counter and mirror differ exactly when a stop was requested since the last operation. */
  lemma DifferenceTells(run: seq<Step>, env: Env, i: nat)
    requires IsRun(run, env) && i < |Exec(run, env).rows|
    ensures Exec(run, env).rows[i].stops != Mirror(Exec(run, env), i) <==> StopsSince(run, env, i) % WRAP != 0
  {
    hide Counter, Mirror, StopsSeen, StopsSince, Exec, IsRun;
    CountersTell(run, env, i);
    CountersAgree(StopsSeen(run, env, i), StopsSeen(run, env, i) + StopsSince(run, env, i));
  }

  /** None of these steps operates row i. */
  ghost predicate Unoperated(run: seq<Step>, more: seq<Step>, env: Env, i: nat)
    requires IsRun(run + more, env)
    decreases |more|
  {
    if more == [] then true
    else
      RunPrefix(run, more, env);
      var less, s := more[..|more| - 1], more[|more| - 1];
      Unoperated(run, less, env, i) && !(s == Scan(i) && Operates(Exec(run + less, env), i))
  }

  lemma {:induction false} StopsOnlyAddUp(run: seq<Step>, more: seq<Step>, env: Env, i: nat)
    requires IsRun(run + more, env) && Unoperated(run, more, env, i)
    ensures IsRun(run, env) && |Exec(run, env).rows| <= |Exec(run + more, env).rows|
    ensures StopsSince(run, env, i) <= StopsSince(run + more, env, i) <= StopsSince(run, env, i) + |more|
    decreases |more|
  {
    hide Take, Possible, Operates, WellFormed;
    RunPrefix(run, more, env);
    if more == [] {
      assert run + more == run;
    } else {
      var less := more[..|more| - 1];
      assert (run + more)[..|run + more| - 1] == run + less;
      StopsOnlyAddUp(run, less, env, i);
      TakeKeepsWellFormed(Exec(run + less, env), more[|more| - 1], env);
    }
  }

  /**
   A stop that is pending stays pending until the slot is operated, whatever anybody does meanwhile: no
   later speed command, no release and no new activation brings counter and mirror together, as
   long as fewer than 2^32 requests are outstanding.
   */
  lemma PendingStopsStay(run: seq<Step>, more: seq<Step>, env: Env, i: nat)
    requires IsRun(run, env) && IsRun(run + more, env) && Unoperated(run, more, env, i)
    requires i < |Exec(run, env).rows| && Exec(run, env).rows[i].stops != Mirror(Exec(run, env), i)
    requires StopsSince(run + more, env, i) < WRAP
    ensures i < |Exec(run + more, env).rows|
    ensures Exec(run + more, env).rows[i].stops != Mirror(Exec(run + more, env), i)
  {
    hide Mirror, StopsSince, Exec, IsRun, Unoperated;
    DifferenceTells(run, env, i);
    StopsOnlyAddUp(run, more, env, i);
    DifferenceTells(run + more, env, i);
  }

  // ----- Coming round -----

  /** n stops in a row for row i. */
  function Stops(i: nat, n: nat): seq<Step> {
    if n == 0 then [] else Stops(i, n - 1) + [Throttle(i, EmergencyStop)]
  }

  /** Requests add up: they move the row's counter and speed, and nothing else. */
  lemma {:induction false} StopsInARow(run: seq<Step>, env: Env, i: nat, n: nat)
    requires IsRun(run, env) && i < |Exec(run, env).rows|
    ensures IsRun(run + Stops(i, n), env)
    ensures StopsSince(run + Stops(i, n), env, i) == StopsSince(run, env, i) + n
    ensures var w, w1 := Exec(run, env), Exec(run + Stops(i, n), env);
            var row := w.rows[i];
            && |w1.rows| == |w.rows|
            && w1 == w.(rows := w.rows[i := row.(stops := w1.rows[i].stops, speed := if n == 0 then row.speed else 0)])
  {
    hide IsRun, Exec, StopsSince, WellFormed, Increment, ValidRow;
    if n == 0 {
      assert run + [] == run;
    } else {
      var less := run + Stops(i, n - 1);
      StopsInARow(run, env, i, n - 1);
      OneMoreStep(less, Throttle(i, EmergencyStop), env);
      StopsOneMore(less, Throttle(i, EmergencyStop), env, i);
      assert run + Stops(i, n) == less + [Throttle(i, EmergencyStop)];
    }
  }

  /** Among these events, the only speed command is the ordinary stop. */
  predicate NoEmergencyStop(events: seq<Event>) {
    forall k :: 0 <= k < |events| && events[k].Sent? && events[k].frame.LocoSpd? ==> events[k].frame.spd == 0
  }

  /**
   The wrap, as a run: with nothing pending, n stops are noticed exactly when n is no multiple of 2^32.
   After 2^32 stops the next visit sends no emergency stop. At most it sends the ordinary stop, and
   the requests are forgotten.
   */
  lemma ComingRoundHidesStops(run: seq<Step>, env: Env, i: nat, n: nat)
    requires IsRun(run, env) && Operates(Exec(run, env), i) && StopsSince(run, env, i) % WRAP == 0 && n > 0
    ensures var run1 := run + Stops(i, n);
            && IsRun(run1, env) && Operates(Exec(run1, env), i)
            && StopsSince(run1, env, i) == StopsSince(run, env, i) + n
            && IsRun(run1 + [Scan(i)], env) && StopsSince(run1 + [Scan(i)], env, i) == 0
            && (NoEmergencyStop(LastVisit(run1, env, i)) <==> n % WRAP == 0)
  {
    hide IsRun, Exec, StopsSince, Stops, VisitOf, AfterVisit, NoEmergencyStop, WellFormed;
    var run1 := run + Stops(i, n);
    StopsInARow(run, env, i, n);
    OneMoreStep(run1, Scan(i), env);
    StopsOneMore(run1, Scan(i), env, i);
    DifferenceTells(run1, env, i);
    StopOrOrdinaryStop(Exec(run1, env), i, env);
  }

  /** What a visit of row i after this run puts on the wire. */
  ghost function LastVisit(run: seq<Step>, env: Env, i: nat): seq<Event>
    requires IsRun(run, env) && i < |Exec(run, env).rows|
  {
    VisitOf(Exec(run, env), i, env).events
  }

  lemma StopOrOrdinaryStop(w: World, i: nat, env: Env)
    requires WellFormed(w) && Operates(w, i) && w.rows[i].speed == 0
    ensures NoEmergencyStop(VisitOf(w, i, env).events) <==> w.rows[i].stops == w.slots[w.rows[i].address].stops
  {
    hide With, DirectionOf, DirfMask, SndMask, IsDirfFunction, IsSndFunction;
    var v := VisitOf(w, i, env);
    assert v.events != [] ==> v.events[0].Sent?;
  }

  /** Such a run from the start: acquire, take over, stop 2^32 times. */
  lemma StopsLost(a: Address, env: Env, d: SlotRead)
    requires a.Valid() && env.answer(0) == SlotAnswer(d) && InUse(d) && IsOurs(d) && !env.crash(1)
    ensures var run1 := [AddRow(a), Throttle(0, Acquire)] + [Scan(0)] + Stops(0, WRAP);
            && IsRun(run1, env) && Operates(Exec(run1, env), 0)
            && StopsSince(run1, env, 0) == WRAP && NoEmergencyStop(LastVisit(run1, env, 0))
  {
    hide InUse, IsOurs, IsRun, Exec, Address.Low, Address.High, StopsSince, Stops, LastVisit, NoEmergencyStop;
    var two := [AddRow(a), Throttle(0, Acquire)];
    FirstSteps(a, env);
    OneMoreStep(two, Scan(0), env);
    NothingAsked(a, env);
    ComingRoundHidesStops(two + [Scan(0)], env, 0, WRAP);
  }

  lemma NothingAsked(a: Address, env: Env)
    requires IsRun([AddRow(a), Throttle(0, Acquire)] + [Scan(0)], env)
    ensures StopsSince([AddRow(a), Throttle(0, Acquire)] + [Scan(0)], env, 0) == 0
  {
    hide IsRun, Exec, StopsSince, Operates, Take, Possible;
    var one, two := [AddRow(a)], [AddRow(a), Throttle(0, Acquire)];
    RunPrefix(two, [Scan(0)], env);
    assert one + [Throttle(0, Acquire)] == two && [] + one == one;
    RunPrefix(one, [Throttle(0, Acquire)], env);
    RunPrefix([], one, env);
    NoStopsYet(env);
    StopsOneMore([], AddRow(a), env, 0);
    StopsOneMore(one, Throttle(0, Acquire), env, 0);
    StopsOneMore(two, Scan(0), env, 0);
  }

  // ----- Giving the slot back -----

  /**
   With a stop pending for a slot that is held, the next visit sends it exactly when the row is still
   wanted. Otherwise it gives the slot back with a single status frame: the station's speed, direction
   and functions stay as they are, and the stop stays pending until the slot is operated again.
   */
  lemma StopIsSentOnlyWhileWanted(run: seq<Step>, env: Env, i: nat, cs: Station)
    requires IsRun(run, env) && i < |Exec(run, env).rows| && StopsSince(run, env, i) % WRAP != 0
    requires var known := SlotOf(Exec(run, env), Exec(run, env).rows[i].address);
             known.Some? && known.value.phase == Active
    ensures var w := Exec(run, env);
            var row, slot := w.rows[i], w.slots[w.rows[i].address];
            var v, w1 := VisitOf(w, i, env), AfterVisit(w, i, env);
            && IsRun(run + [Scan(i)], env) && w1 == Exec(run + [Scan(i)], env)
            && (row.active <==>
                  && v.events == [Send(row.address, LocoSpd(slot.number.value, 1), |w.log|, env)]
                  && Mirror(w1, i) == w1.rows[i].stops)
            && (!row.active ==>
                  && v.events == [Send(row.address, SlotStat1(slot.number.value, slot.stat1.value), |w.log|, env)]
                  && CsAfter(cs, v.events) == cs
                  && w1.rows[i].stops != Mirror(w1, i)
                  && StopsSince(run + [Scan(i)], env, i) == StopsSince(run, env, i))
  {
    hide SpeedByte, With, SendFunction, SendDirf, DirectionOf, StopsSeen, CsAfter, Exec, IsRun, Sendable, Activating;
    var w := Exec(run, env);
    OneMoreStep(run, Scan(i), env);
    DifferenceTells(run, env, i);
    StepMovesCounters(w, Scan(i), env, i);
    assert (run + [Scan(i)])[..|run|] == run;
    if !w.rows[i].active {
      LogOfOne(cs, map[], VisitOf(w, i, env).events[0]);
    }
  }

  /** Acquire, take over, release. */
  function ReleaseRun(a: Address): seq<Step> {
    [AddRow(a), Throttle(0, Acquire)] + [Scan(0)] + [Throttle(0, Release)]
  }

  /**
   A run in which that happens: acquire, take over, release, visit. The release asked for a stop, yet
   the wire carries the lookup and the status frame only, whatever speed the slot was read with.
   */
  lemma ReleaseSendsNoStop(a: Address, env: Env, d: SlotRead)
    requires a.Valid() && env.answer(0) == SlotAnswer(d) && InUse(d) && IsOurs(d) && !env.crash(1)
    ensures IsRun(ReleaseRun(a), env) && IsRun(ReleaseRun(a) + [Scan(0)], env)
    ensures StopsSince(ReleaseRun(a), env, 0) == 1
    ensures var w := Exec(ReleaseRun(a) + [Scan(0)], env);
            && |w.rows| == 1 && w.rows[0].stops == 1 && Mirror(w, 0) == 0
            && w.log == [Sent(a, LocoAdr(a.Low(), a.High()), env.answer(0)), Reported(a, false),
                         Sent(a, SlotStat1(d.slot, d.stat), env.answer(2))]
  {
    hide InUse, IsOurs, IsRun, Exec, Address.Low, Address.High, StopsSince;
    var two := [AddRow(a), Throttle(0, Acquire)];
    FirstSteps(a, env);
    OneMoreStep(two, Scan(0), env);
    OneMoreStep(two + [Scan(0)], Throttle(0, Release), env);
    OneMoreStep(ReleaseRun(a), Scan(0), env);
    OneStopAsked(a, env);
  }

  lemma OneStopAsked(a: Address, env: Env)
    requires IsRun(ReleaseRun(a), env)
    ensures StopsSince(ReleaseRun(a), env, 0) == 1
  {
    hide IsRun, Exec, StopsSince, Operates, Take, Possible;
    var two := [AddRow(a), Throttle(0, Acquire)];
    RunPrefix(two + [Scan(0)], [Throttle(0, Release)], env);
    NothingAsked(a, env);
    StopsOneMore(two + [Scan(0)], Throttle(0, Release), env, 0);
  }

  lemma NoStopsYet(env: Env)
    ensures IsRun([], env) && StopsSince([], env, 0) == 0
  {
  }

  lemma StopsOneMore(run: seq<Step>, s: Step, env: Env, i: nat)
    requires IsRun(run, env) && IsRun(run + [s], env)
    ensures !(s.Throttle? && s.row == i) && s != Scan(i) ==> StopsSince(run + [s], env, i) == StopsSince(run, env, i)
    ensures s.Throttle? && s.row == i ==>
              StopsSince(run + [s], env, i) == StopsSince(run, env, i) + if IsStopRequest(s.command) then 1 else 0
    ensures s == Scan(i) ==>
              StopsSince(run + [s], env, i) == if Operates(Exec(run, env), i) then 0 else StopsSince(run, env, i)
  {
    hide Operates, Exec, IsRun;
    assert (run + [s])[..|run|] == run;
  }
}
