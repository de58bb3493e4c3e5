/**
 The bridge between rows and one LocoNet connection, as a transition system on values.
 A step is a throttle command on a row, another connection taking from a row's function queue, or
 the send thread visiting a row. What the command
 station answers, and whether reporting to the waiting throttle raises an exception, is decided
 by an arbitrary environment indexed by the number of events so far.
 */
module SlotBridge {
  import opened Wrappers
  import opened Bits
  import opened Frames
  import opened Rows
  import F = Functions

  datatype Phase = Untouched | Inactive | Active | Failed | Occupied

  /** What the send thread remembers about one address. */
  datatype Slot = Slot(phase: Phase, stops: Int32, number: Option<bv8>, stat1: Option<bv8>,
                       speed: Option<bv8>, dirf: Option<bv8>, snd: Option<bv8>)

  const FRESH := Slot(Untouched, 0, None, None, None, None, None)

  predicate IsData(b: Option<bv8>) {
    b.Some? && b.value <= 127
  }

  /** Everything the send path dereferences is present and fits a data byte. */
  predicate Ready(s: Slot) {
    IsData(s.number) && IsData(s.stat1) && IsData(s.speed) && IsData(s.dirf) && IsData(s.snd)
  }

  predicate ValidSlot(s: Slot) {
    s.phase == Active ==> Ready(s)
  }

  datatype Env = Env(answer: nat -> Answer, crash: nat -> bool)

  /** The event of sending f as event number `at`. */
  function Send(a: Address, f: Frame, at: nat, env: Env): Event {
    Sent(a, f, env.answer(at))
  }

  // ----- Occupying and releasing a slot -----

  function InitializeFromSlot(s: Slot, d: SlotRead): Slot {
    s.(number := Some(d.slot), stat1 := Some(d.stat), speed := Some(d.spd), dirf := Some(d.dirf), snd := Some(d.snd))
  }

  /** How an attempt to occupy a slot ends; `data` is what the row is told on success. */
  datatype Attempt = Attempt(slot: Slot, events: seq<Event>, phase: Phase, data: Option<SlotRead>)

  function Activating(a: Address, s: Slot, at: nat, env: Env): Attempt
    requires a.Valid()
  {
    var lookup := Send(a, LocoAdr(a.Low(), a.High()), at, env);
    if !lookup.answer.SlotAnswer? then Attempt(s, [lookup], Failed, None)
    else
      var d := lookup.answer.data;
      var s1 := InitializeFromSlot(s, d);
      if InUse(d) then
        if IsOurs(d) then Attempt(s1, [lookup], Active, Some(d)) else Attempt(s1, [lookup], Occupied, None)
      else
        var move := Send(a, MoveSlots(d.slot, d.slot), at + 1, env);
        if !move.answer.SlotAnswer? then Attempt(s1, [lookup, move], Failed, None)
        else
          var d2 := move.answer.data;
          if IsOurs(d2) then Attempt(s1, [lookup, move], Active, Some(d2))
          else
            var write := Send(a, WrSlData(WithOurId(d2)), at + 2, env);
            if write.answer == Acknowledged then Attempt(s1, [lookup, move, write], Active, Some(d2))
            else Attempt(s1, [lookup, move, write], Failed, None)
  }

  /** What a visit does to the row, to the slot memory of its address, and to the outside. */
  datatype Visited = Visited(row: Row, slot: Option<Slot>, events: seq<Event>, found: bool, crashed: bool)

  function Activate(row: Row, s: Slot, at: nat, env: Env): Visited
    requires row.address.Valid()
  {
    var t := Activating(row.address, s, at, env);
    var crashed := env.crash(at + |t.events|);
    Visited(row, Some(if crashed then t.slot else t.slot.(phase := t.phase)),
            t.events + [Reported(row.address, crashed)], true, crashed)
  }

  function Deactivate(row: Row, s: Slot, at: nat, env: Env): Visited
    requires Ready(s)
  {
    Visited(row, Some(s.(phase := Inactive)),
            [Send(row.address, SlotStat1(s.number.value, s.stat1.value), at, env)], true, false)
  }

  // ----- Operating a slot -----

  function SendSpeed(row: Row, s: Slot, speed: bv8, at: nat, env: Env): Visited
    requires Ready(s)
  {
    Visited(row, Some(s.(speed := Some(speed))),
            [Send(row.address, LocoSpd(s.number.value, speed), at, env)], true, false)
  }

  function SendDirf(row: Row, s: Slot, mask: bv8, on: bool, at: nat, env: Env): Visited
    requires Ready(s)
  {
    var dirf := With(s.dirf.value, mask, on);
    Visited(row, Some(s.(dirf := Some(dirf))),
            [Send(row.address, LocoDirf(s.number.value, dirf), at, env)], true, false)
  }

  function SendSnd(row: Row, s: Slot, mask: bv8, on: bool, at: nat, env: Env): Visited
    requires Ready(s)
  {
    var snd := With(s.snd.value, mask, on);
    Visited(row, Some(s.(snd := Some(snd))), [Send(row.address, LocoSnd(s.number.value, snd), at, env)], true, false)
  }

  /** Functions above F8 are taken from the queue but reach no frame. */
  function SendFunction(row: Row, s: Slot, f: F.FunctionState, at: nat, env: Env): Visited
    requires Ready(s)
  {
    if IsDirfFunction(f.number) then SendDirf(row, s, DirfMask(f.number), f.isOn, at, env)
    else if IsSndFunction(f.number) then SendSnd(row, s, SndMask(f.number), f.isOn, at, env)
    else Visited(row, Some(s), [], true, false)
  }

  /** Emergency stop first, then speed, then direction, then one function change. */
  function Operate(row: Row, s: Slot, at: nat, env: Env): Visited
    requires Ready(s) && IsSpeed(row.speed)
  {
    if row.stops != s.stops then
      SendSpeed(row, s.(stops := row.stops), 1, at, env)
    else if s.speed.value != SpeedByte(row.speed) then
      SendSpeed(row, s, SpeedByte(row.speed), at, env)
    else if DirectionOf(s.dirf.value) != row.direction then
      SendDirf(row, s, DIR, row.direction != Forward, at, env)
    else if row.functions.queue != [] then
      SendFunction(row.(functions := F.Apply(row.functions, F.Dequeue)), s, row.functions.queue[0], at, env)
    else
      Visited(row, Some(s), [], false, false)
  }

  /** One iteration of the scan over the rows. */
  function Visit(row: Row, known: Option<Slot>, at: nat, env: Env): Visited
    requires ValidRow(row) && (known.Some? ==> ValidSlot(known.value))
  {
    if !row.active && known.None? then Visited(row, None, [], false, false)
    else
      var s := known.GetOr(FRESH);
      match s.phase
      case Untouched | Inactive =>
        if row.active then Activate(row, s, at, env) else Visited(row, Some(s), [], false, false)
      case Active =>
        if row.active then Operate(row, s, at, env) else Deactivate(row, s, at, env)
      case Failed | Occupied =>
        if row.active then Visited(row, Some(s), [], false, false)
        else Visited(row, Some(s.(phase := Inactive)), [], true, false)
  }

  // ----- The whole system -----

  datatype World = World(rows: seq<Row>, slots: map<Address, Slot>, log: seq<Event>)

  const START := World([], map[], [])

  ghost predicate WellFormed(w: World) {
    && (forall i :: 0 <= i < |w.rows| ==> ValidRow(w.rows[i]))
    && (forall i, j :: 0 <= i < j < |w.rows| ==> w.rows[i].address != w.rows[j].address)
    && (forall a :: a in w.slots ==> ValidSlot(w.slots[a]))
    && (forall i :: 0 <= i < |w.log| && w.log[i].Sent? ==> Sendable(w.log[i].frame))
  }

  function SlotOf(w: World, a: Address): Option<Slot> {
    if a in w.slots then Some(w.slots[a]) else None
  }

  function VisitOf(w: World, i: int, env: Env): Visited
    requires 0 <= i < |w.rows|
    requires ValidRow(w.rows[i])
    requires w.rows[i].address in w.slots ==> ValidSlot(w.slots[w.rows[i].address])
  {
    Visit(w.rows[i], SlotOf(w, w.rows[i].address), |w.log|, env)
  }

  function After(w: World, i: int, v: Visited): World
    requires 0 <= i < |w.rows|
  {
    World(w.rows[i := v.row], if v.slot.Some? then w.slots[v.row.address := v.slot.value] else w.slots,
          w.log + v.events)
  }

  function AfterVisit(w: World, i: int, env: Env): World
    requires 0 <= i < |w.rows| && WellFormed(w)
  {
    After(w, i, VisitOf(w, i, env))
  }

  /** Visiting an address for the first time is visiting it with a fresh slot memory. */
  lemma FreshOnFirstUse(w: World, i: int, env: Env)
    requires 0 <= i < |w.rows| && WellFormed(w)
    requires w.rows[i].active || w.rows[i].address in w.slots
    ensures var a := w.rows[i].address;
            var s := SlotOf(w, a).GetOr(FRESH);
            && ValidSlot(s)
            && var v := Visit(w.rows[i], Some(s), |w.log|, env);
            && v == VisitOf(w, i, env)
            && After(w.(slots := w.slots[a := s]), i, v) == AfterVisit(w, i, env)
  {
    var a := w.rows[i].address;
    var s := SlotOf(w, a).GetOr(FRESH);
    VisitIsValid(w.rows[i], Some(s), |w.log|, env);
    var v := Visit(w.rows[i], Some(s), |w.log|, env);
    assert w.slots[a := s][a := v.slot.value] == w.slots[a := v.slot.value];
  }

  lemma NothingToDo(w: World, i: int, env: Env)
    requires 0 <= i < |w.rows| && WellFormed(w)
    requires !w.rows[i].active && w.rows[i].address !in w.slots
    ensures AfterVisit(w, i, env) == w && !VisitOf(w, i, env).found && !VisitOf(w, i, env).crashed
  {
    assert w.rows[i := w.rows[i]] == w.rows;
  }

  datatype Step = AddRow(address: Address) | Throttle(row: nat, command: Command) | Scan(row: nat)

  ghost predicate Possible(w: World, s: Step) {
    match s
    case AddRow(a) => a.Valid()
    case Throttle(i, c) => i < |w.rows| && ValidCommand(c)
    case Scan(i) => i < |w.rows|
  }

  predicate HasRow(w: World, a: Address) {
    exists i :: 0 <= i < |w.rows| && w.rows[i].address == a
  }

  ghost function Take(w: World, s: Step, env: Env): World
    requires WellFormed(w) && Possible(w, s)
  {
    match s
    case AddRow(a) => if HasRow(w, a) then w else w.(rows := w.rows + [NewRow(a)])
    case Throttle(i, c) => w.(rows := w.rows[i := Obey(w.rows[i], c)])
    case Scan(i) => AfterVisit(w, i, env)
  }

  // ----- Every step keeps the system well formed -----

  /** Events of one visit: all about this address, and every frame representable. */
  predicate AllFine(events: seq<Event>, a: Address) {
    forall i :: 0 <= i < |events| ==> events[i].address == a && (events[i].Sent? ==> Sendable(events[i].frame))
  }

  lemma AttemptIsValid(a: Address, s: Slot, at: nat, env: Env)
    requires a.Valid()
    ensures var t := Activating(a, s, at, env);
            && (t.phase == Active ==> Ready(t.slot) && t.data.Some?)
            && t.phase in {Active, Failed, Occupied}
            && t.slot.phase == s.phase && t.slot.stops == s.stops
            && (t.slot == s || Ready(t.slot))
            && AllFine(t.events, a)
  {
    AddressBytesIdentify(a, a);
    hide InUse, IsOurs, WithOurId, Address.Low, Address.High;
  }

  predicate SingleEffect(row: Row, s: Slot, v: Visited) {
    && v.row == row.(functions := v.row.functions)
    && v.slot.Some? && Ready(v.slot.value)
    && v.slot.value == s.(speed := v.slot.value.speed, dirf := v.slot.value.dirf, snd := v.slot.value.snd)
    && !v.crashed && |v.events| <= 1 && AllFine(v.events, row.address)
  }

  lemma SendDirfIsValid(row: Row, s: Slot, mask: bv8, on: bool, at: nat, env: Env)
    requires Ready(s) && With(s.dirf.value, mask, on) <= 127
    ensures SingleEffect(row, s, SendDirf(row, s, mask, on, at, env))
  {
    hide With;
  }

  lemma SendSndIsValid(row: Row, s: Slot, mask: bv8, on: bool, at: nat, env: Env)
    requires Ready(s) && With(s.snd.value, mask, on) <= 127
    ensures SingleEffect(row, s, SendSnd(row, s, mask, on, at, env))
  {
    hide With;
  }

  lemma SendFunctionIsValid(row: Row, s: Slot, f: F.FunctionState, at: nat, env: Env)
    requires Ready(s)
    ensures SingleEffect(row, s, SendFunction(row, s, f, at, env))
  {
    hide With, DirfMask, SndMask, FunctionBit, DirectionOf, SendDirf, SendSnd, IsDirfFunction, IsSndFunction, Sendable;
    FunctionWriteIsLocal(s.dirf.value, s.snd.value, f.number, f.isOn, 0);
    if IsDirfFunction(f.number) {
      SendDirfIsValid(row, s, DirfMask(f.number), f.isOn, at, env);
    } else if IsSndFunction(f.number) {
      SendSndIsValid(row, s, SndMask(f.number), f.isOn, at, env);
    }
  }

  lemma SendDirectionIsValid(row: Row, s: Slot, reverse: bool, at: nat, env: Env)
    requires Ready(s)
    ensures SingleEffect(row, s, SendDirf(row, s, DIR, reverse, at, env))
  {
    DirectionWriteIsLocal(s.dirf.value, 0, reverse, 0);
    SendDirfIsValid(row, s, DIR, reverse, at, env);
    hide SingleEffect, SendDirf, With;
  }

  /** Operating keeps the slot ready, picks up every stop request, and sends at most one frame. */
  lemma OperateIsValid(row: Row, s: Slot, at: nat, env: Env)
    requires ValidRow(row) && Ready(s)
    ensures SingleEffect(row, s.(stops := row.stops), Operate(row, s, at, env))
  {
    hide With, SendFunction, SendDirf, DirectionOf;
    SendDirectionIsValid(row, s, row.direction != Forward, at, env);
    if row.functions.queue != [] {
      var row1 := row.(functions := F.Apply(row.functions, F.Dequeue));
      SendFunctionIsValid(row1, s, row.functions.queue[0], at, env);
    }
  }

  /** A visit keeps the slot memory valid and sends only representable values. */
  lemma VisitIsValid(row: Row, known: Option<Slot>, at: nat, env: Env)
    requires ValidRow(row) && (known.Some? ==> ValidSlot(known.value))
    ensures var v := Visit(row, known, at, env);
            && v.row == row.(functions := v.row.functions)
            && (v.slot.Some? ==> ValidSlot(v.slot.value))
            && (known.Some? ==> v.slot.Some?)
            && AllFine(v.events, row.address)
  {
    var s := known.GetOr(FRESH);
    if row.active && (s.phase == Untouched || s.phase == Inactive) {
      AttemptIsValid(row.address, s, at, env);
    } else if row.active && s.phase == Active {
      OperateIsValid(row, s, at, env);
    }
  }

  lemma TakeKeepsWellFormed(w: World, s: Step, env: Env)
    requires WellFormed(w) && Possible(w, s)
    ensures WellFormed(Take(w, s, env))
    ensures |w.rows| <= |Take(w, s, env).rows|
    ensures forall i :: 0 <= i < |w.rows| ==> Take(w, s, env).rows[i].address == w.rows[i].address
    ensures |w.log| <= |Take(w, s, env).log| && Take(w, s, env).log[..|w.log|] == w.log
  {
    hide Visit, Obey;
    if s.Scan? {
      VisitIsValid(w.rows[s.row], SlotOf(w, w.rows[s.row].address), |w.log|, env);
      hide Sendable, ValidSlot;
    } else if s.Throttle? {
      ObeyKeepsValid(w.rows[s.row], s.command);
    }
  }

  // ----- Runs -----

  /** The steps can be taken one after the other, starting from the empty table. */
  ghost predicate IsRun(run: seq<Step>, env: Env)
    decreases |run|, 0
  {
    run == [] ||
    (IsRun(run[..|run| - 1], env) && Possible(Exec(run[..|run| - 1], env), run[|run| - 1]))
  }

  ghost function Exec(run: seq<Step>, env: Env): (w: World)
    requires IsRun(run, env)
    ensures WellFormed(w)
    decreases |run|, 1
  {
    if run == [] then START
    else
      var w := Exec(run[..|run| - 1], env);
      TakeKeepsWellFormed(w, run[|run| - 1], env);
      Take(w, run[|run| - 1], env)
  }

  /** A run's beginning is a run, and its last step is a step from there. */
  lemma {:induction false} RunPrefix(run: seq<Step>, more: seq<Step>, env: Env)
    requires IsRun(run + more, env)
    ensures IsRun(run, env)
    ensures more != [] ==>
              var less := run + more[..|more| - 1];
              && IsRun(less, env) && Possible(Exec(less, env), more[|more| - 1])
              && Exec(run + more, env) == Take(Exec(less, env), more[|more| - 1], env)
    decreases |more|
  {
    hide Take, Possible, WellFormed;
    if more == [] {
      assert run + more == run;
    } else {
      assert (run + more)[..|run + more| - 1] == run + more[..|more| - 1];
      RunPrefix(run, more[..|more| - 1], env);
    }
  }

  lemma OneMoreStep(run: seq<Step>, s: Step, env: Env)
    requires IsRun(run, env) && Possible(Exec(run, env), s)
    ensures IsRun(run + [s], env) && Exec(run + [s], env) == Take(Exec(run, env), s, env)
  {
    hide Take, Possible, WellFormed;
    assert (run + [s])[..|run|] == run;
  }

  /** The shortest run that makes the send thread act: a row is added and wanted. */
  lemma FirstSteps(a: Address, env: Env)
    requires a.Valid()
    ensures IsRun([AddRow(a), Throttle(0, Acquire)], env)
    ensures Exec([AddRow(a), Throttle(0, Acquire)], env) == World([NewRow(a).(active := true)], map[], [])
  {
    var one, two := [AddRow(a)], [AddRow(a), Throttle(0, Acquire)];
    assert one[..0] == [] && two[..1] == one;
    assert IsRun([], env) && Exec([], env) == START;
    assert one[|one| - 1] == AddRow(a) && one[..|one| - 1] == [];
    assert IsRun(one, env);
    assert Exec(one, env) == Take(START, AddRow(a), env) == World([NewRow(a)], map[], []);
    assert two[..|two| - 1] == one && two[|two| - 1] == Throttle(0, Acquire);
    assert IsRun(two, env);
    assert Exec(two, env).rows == [NewRow(a).(active := true)];
  }

  // ----- Scanning all rows -----

  datatype Scanned = Scanned(world: World, polls: nat, found: bool, stopped: bool, crashed: bool)

  /**
   The rest of one pass, from row i on. The thread polls for cancellation before each row;
   `polls` is how many polls still say "go on".
   */
  ghost function ScanFrom(w: World, i: nat, polls: nat, env: Env): (r: Scanned)
    requires WellFormed(w) && i <= |w.rows|
    ensures WellFormed(r.world) && |r.world.rows| == |w.rows| && r.polls <= polls
    decreases |w.rows| - i
  {
    if i == |w.rows| then Scanned(w, polls, false, false, false)
    else if polls == 0 then Scanned(w, 0, false, true, false)
    else
      TakeKeepsWellFormed(w, Scan(i), env);
      var v := VisitOf(w, i, env);
      var w1 := AfterVisit(w, i, env);
      if v.crashed then Scanned(w1, polls - 1, v.found, false, true)
      else
        var r := ScanFrom(w1, i + 1, polls - 1, env);
        r.(found := v.found || r.found)
  }

  /** One step of the scan, as an equation. */
  lemma ScanUnfolds(w: World, i: nat, polls: nat, env: Env)
    requires WellFormed(w) && i <= |w.rows|
    ensures i == |w.rows| ==> ScanFrom(w, i, polls, env) == Scanned(w, polls, false, false, false)
    ensures i < |w.rows| && polls == 0 ==> ScanFrom(w, i, polls, env) == Scanned(w, 0, false, true, false)
    ensures i < |w.rows| ==>
            var w1 := AfterVisit(w, i, env);
            var v := VisitOf(w, i, env);
            && WellFormed(w1) && |w1.rows| == |w.rows|
            && (polls > 0 && v.crashed ==> ScanFrom(w, i, polls, env) == Scanned(w1, polls - 1, v.found, false, true))
            && (polls > 0 && !v.crashed ==>
                  var r := ScanFrom(w1, i + 1, polls - 1, env);
                  ScanFrom(w, i, polls, env) == r.(found := v.found || r.found))
  {
    if i < |w.rows| { TakeKeepsWellFormed(w, Scan(i), env); }
  }

  datatype Ended = Ended(world: World, crashed: bool)

  /** Passes until a poll asks to stop or an exception leaves the loop. */
  ghost function Operation(w: World, polls: nat, env: Env): (r: Ended)
    requires WellFormed(w)
    ensures WellFormed(r.world)
    decreases polls
  {
    if polls == 0 then Ended(w, false)
    else
      var r := ScanFrom(w, 0, polls - 1, env);
      if r.crashed || r.stopped then Ended(r.world, r.crashed)
      else Operation(r.world, r.polls, env)
  }
}
