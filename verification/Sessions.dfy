/**
 One throttle session of one loco, end to end: take the slot over, learn its state, give commands,
 and find the last of them, for speed, direction and each function, in the command station at rest.
 */
module Sessions {
  import opened Wrappers
  import opened Bits
  import opened Frames
  import opened Rows
  import opened SlotBridge
  import opened SlotBytes
  import opened CommandStation
  import opened Convergence
  import opened FunctionLog
  import opened RowLog
  import F = Functions

  /** Row i is active and its slot is held. */
  predicate Driven(w: World, i: nat) {
    && i < |w.rows| && w.rows[i].active && w.rows[i].address in w.slots
    && w.slots[w.rows[i].address].phase == Active && Ready(w.slots[w.rows[i].address])
  }

  function SlotAt(w: World, i: nat): Slot
    requires Driven(w, i)
  {
    w.slots[w.rows[i].address]
  }

  /** Fn as the station has it once the queue is drained into these two bytes. */
  predicate Pending(t: F.Table, dirf: bv8, snd: bv8, n: int)
    requires 0 <= n <= 8
  {
    F.LastWrite(t.queue, n, FunctionBit(dirf, snd, n))
  }

  predicate Due(w: World, i: nat, n: int)
    requires Driven(w, i) && 0 <= n <= 8
  {
    Pending(w.rows[i].functions, SlotAt(w, i).dirf.value, SlotAt(w, i).snd.value, n)
  }

  /** F0..F8, once the queue is drained, are what the throttle side calls On. */
  ghost predicate InStep(w: World, i: nat) {
    Driven(w, i) && forall n :: 0 <= n <= 8 ==> Due(w, i, n) == F.On(w.rows[i].functions, n)
  }

  // ----- One row -----

  lemma EventMovesPending(t: F.Table, e: F.Event, dirf: bv8, snd: bv8, n: int)
    requires !e.Dequeue? && 0 <= n <= 8
    ensures Pending(F.Apply(t, e), dirf, snd, n) == F.LastWrite(F.ChangeOf(t, e), n, Pending(t, dirf, snd, n))
  {
    hide FunctionBit;
    F.StepIsFifo(t, e);
    F.LastWriteOfConcat(t.queue, F.ChangeOf(t, e), n, FunctionBit(dirf, snd, n));
    assert [] + F.Apply(t, e).queue == F.Apply(t, e).queue;
  }

  /** What was learnt becomes the state of all nine functions; nothing is queued. */
  lemma AdoptingSetsAll(t: F.Table, d: SlotRead, n: int)
    requires 0 <= n <= 8
    ensures var t1 := F.Apply(t, F.Initialize(ReplyOf(d).functions));
            t1.queue == t.queue && F.On(t1, n) == FunctionBit(d.dirf, d.snd, n)
  {
    hide FunctionBit, DirectionOf;
    var states := ReplyOf(d).functions;
    F.InitializeWrites(t, states, n);
    LastOfTheNine(states, n, 9, F.On(t, n));
    assert states[..9] == states;
  }

  lemma {:induction false} LastOfTheNine(states: seq<F.FunctionState>, n: int, k: nat, initial: bool)
    requires |states| == 9 && 0 <= n < k <= 9
    requires forall j :: 0 <= j < 9 ==> states[j].number == j
    ensures F.LastWrite(states[..k], n, initial) == states[n].isOn
  {
    assert states[..k][..k - 1] == states[..k - 1];
    if n < k - 1 { LastOfTheNine(states, n, k - 1, initial); }
  }

  lemma {:induction false} DrainingOne(q: seq<F.FunctionState>, dirf: bv8, snd: bv8, n: int)
    requires q != [] && 0 <= n <= 8
    ensures F.LastWrite(q[1..], n, FunctionBit(DirfAfter(dirf, q[0].number, q[0].isOn),
                                               SndAfter(snd, q[0].number, q[0].isOn), n))
         == F.LastWrite(q, n, FunctionBit(dirf, snd, n))
  {
    FunctionWriteIsLocal(dirf, snd, q[0].number, q[0].isOn, n);
    hide FunctionBit, DirfAfter, SndAfter;
    assert q == [q[0]] + q[1..];
    F.LastWriteOfConcat([q[0]], q[1..], n, FunctionBit(dirf, snd, n));
    assert [q[0]][..0] == [];
  }

  lemma SendFunctionOnFunctions(row: Row, s: Slot, f: F.FunctionState, at: nat, env: Env)
    requires Ready(s)
    ensures var v := SendFunction(row, s, f, at, env);
            && v.row == row && v.slot.Some?
            && v.slot.value.dirf == Some(DirfAfter(s.dirf.value, f.number, f.isOn))
            && v.slot.value.snd == Some(SndAfter(s.snd.value, f.number, f.isOn))
  {
    hide With, DirfMask, SndMask;
  }

  /** How operating changes the function bytes and the queue. */
  lemma OperateOnFunctions(row: Row, s: Slot, at: nat, env: Env)
    requires ValidRow(row) && Ready(s)
    ensures var v := Operate(row, s, at, env);
            var q := row.functions.queue;
            && v.slot.Some? && Ready(v.slot.value) && v.slot.value.phase == s.phase
            && ((v.row == row && v.slot.value.snd == s.snd
                  && (v.slot.value.dirf == s.dirf
                      || v.slot.value.dirf == Some(With(s.dirf.value, DIR, row.direction != Forward))))
                || (q != [] && v.row == row.(functions := row.functions.(queue := q[1..]))
                    && v.slot.value.dirf == Some(DirfAfter(s.dirf.value, q[0].number, q[0].isOn))
                    && v.slot.value.snd == Some(SndAfter(s.snd.value, q[0].number, q[0].isOn))))
  {
    hide With, DirectionOf, DirfMask, SndMask, SpeedByte, Ready, SendFunction;
    OperateIsValid(row, s, at, env);
    if row.functions.queue != [] {
      SendFunctionOnFunctions(row.(functions := F.Apply(row.functions, F.Dequeue)), s, row.functions.queue[0], at, env);
    }
  }

  lemma OperateKeepsPending(row: Row, s: Slot, at: nat, env: Env, n: int)
    requires ValidRow(row) && Ready(s) && 0 <= n <= 8
    ensures var v := Operate(row, s, at, env);
            && v.slot.Some? && Ready(v.slot.value)
            && Pending(v.row.functions, v.slot.value.dirf.value, v.slot.value.snd.value, n)
                 == Pending(row.functions, s.dirf.value, s.snd.value, n)
            && v.row.functions.known == row.functions.known
  {
    hide Operate, FunctionBit, DirfAfter, SndAfter, With;
    OperateOnFunctions(row, s, at, env);
    DirectionWriteIsLocal(s.dirf.value, s.snd.value, row.direction != Forward, n);
    if row.functions.queue != [] { DrainingOne(row.functions.queue, s.dirf.value, s.snd.value, n); }
  }

  // ----- Steps -----

  /** A step of somebody else leaves the row and its slot alone. */
  lemma OthersLeaveRow(w: World, s: Step, env: Env, i: nat)
    requires WellFormed(w) && Possible(w, s) && i < |w.rows|
    requires !(s.Throttle? && s.row == i) && s != Scan(i)
    ensures var w1 := Take(w, s, env);
            && i < |w1.rows| && w1.rows[i] == w.rows[i]
            && SlotOf(w1, w.rows[i].address) == SlotOf(w, w.rows[i].address)
  {
    if s.Scan? {
      VisitIsValid(w.rows[s.row], SlotOf(w, w.rows[s.row].address), |w.log|, env);
      hide Visit;
      if s.row < i { assert w.rows[s.row].address != w.rows[i].address; }
      if i < s.row { assert w.rows[i].address != w.rows[s.row].address; }
    }
  }

  /** The row is released, or another connection takes a change that this one would have sent. */
  predicate EndsSession(s: Step, i: nat) {
    s.Throttle? && s.row == i && (s.command.Release? || s.command.TakenElsewhere?)
  }

  predicate Adopts(s: Step, i: nat) {
    s.Throttle? && s.row == i && s.command.Adopt?
  }

  lemma VisitKeepsDue(w: World, env: Env, i: nat, n: int)
    requires WellFormed(w) && Driven(w, i) && 0 <= n <= 8
    ensures var w1 := AfterVisit(w, i, env);
            && Driven(w1, i) && Due(w1, i, n) == Due(w, i, n)
            && w1.rows[i].functions.known == w.rows[i].functions.known
  {
    hide Operate, Pending;
    OperateKeepsPending(w.rows[i], SlotAt(w, i), |w.log|, env, n);
    OperateIsValid(w.rows[i], SlotAt(w, i), |w.log|, env);
  }

  /** Inside a session, a step moves what is due exactly as it changes the row's functions. */
  lemma StepMovesDue(w: World, s: Step, env: Env, i: nat, n: int)
    requires WellFormed(w) && Possible(w, s) && Driven(w, i) && !EndsSession(s, i) && 0 <= n <= 8
    ensures var changes := F.Changes(w.rows[i].functions, EventOf(w, s, env, i));
            && Driven(Take(w, s, env), i)
            && Due(Take(w, s, env), i, n) == F.LastWrite(changes, n, Due(w, i, n))
            && (!Adopts(s, i) ==>
                  F.On(Take(w, s, env).rows[i].functions, n) == F.LastWrite(changes, n, F.On(w.rows[i].functions, n)))
  {
    hide Pending, VisitOf, AfterVisit;
    var t := w.rows[i].functions;
    if s == Scan(i) {
      VisitKeepsDue(w, env, i, n);
      ChangesOfOne(t, F.Dequeue);
    } else if s.Throttle? && s.row == i {
      if s.command.Function? {
        EventMovesPending(t, s.command.event, SlotAt(w, i).dirf.value, SlotAt(w, i).snd.value, n);
        ChangesOfOne(t, s.command.event);
        F.StepWrites(t, s.command.event, n);
      } else if s.command.Adopt? {
        var e := F.Initialize(s.command.reply.functions);
        EventMovesPending(t, e, SlotAt(w, i).dirf.value, SlotAt(w, i).snd.value, n);
        ChangesOfOne(t, e);
      }
    } else {
      OthersLeaveRow(w, s, env, i);
      hide Take;
    }
  }

  lemma ChangesOfOne(t: F.Table, e: F.Event)
    ensures F.Changes(t, [e]) == F.ChangeOf(t, e)
  {
    assert [e][..0] == [];
  }

  /** Inside a session every step keeps the functions in step. */
  lemma StepKeepsInStep(w: World, s: Step, env: Env, i: nat)
    requires WellFormed(w) && Possible(w, s) && InStep(w, i) && !EndsSession(s, i) && !Adopts(s, i)
    ensures InStep(Take(w, s, env), i)
  {
    hide Take, Due, Driven, EventOf;
    StepMovesDue(w, s, env, i, 0);
    IsInTable(Take(w, s, env), i);
    forall n | 0 <= n <= 8
      ensures Driven(Take(w, s, env), i) && Due(Take(w, s, env), i, n) == F.On(Take(w, s, env).rows[i].functions, n)
    {
      StepMovesDue(w, s, env, i, n);
    }
  }

  /** Adopting sets the flags to what was learnt, and moves nothing that is due. */
  lemma AdoptMovesFlagsOnly(w: World, i: nat, d: SlotRead, env: Env, n: int)
    requires WellFormed(w) && Driven(w, i) && 0 <= n <= 8
    ensures var adopt := Throttle(i, Adopt(ReplyOf(d)));
            && Possible(w, adopt)
            && var w1 := Take(w, adopt, env);
               && Driven(w1, i) && Due(w1, i, n) == Due(w, i, n)
               && F.On(w1.rows[i].functions, n) == FunctionBit(d.dirf, d.snd, n)
  {
    hide FunctionBit;
    AdoptingSetsAll(w.rows[i].functions, d, n);
  }

  /** Adopting starts in step exactly when what is due for the slot is what was learnt of it. */
  lemma AdoptStartsInStep(w: World, i: nat, d: SlotRead, env: Env)
    requires WellFormed(w) && Driven(w, i)
    ensures var adopt := Throttle(i, Adopt(ReplyOf(d)));
            && Possible(w, adopt)
            && (InStep(Take(w, adopt, env), i) <==>
                  forall n :: 0 <= n <= 8 ==> Due(w, i, n) == FunctionBit(d.dirf, d.snd, n))
  {
    hide FunctionBit, Take, Due, Driven, Possible;
    AdoptMovesFlagsOnly(w, i, d, env, 0);
    var w1 := Take(w, Throttle(i, Adopt(ReplyOf(d))), env);
    IsInTable(w1, i);
    forall n | 0 <= n <= 8
      ensures Driven(w1, i) && Due(w1, i, n) == Due(w, i, n)
      ensures F.On(w1.rows[i].functions, n) == FunctionBit(d.dirf, d.snd, n)
    {
      AdoptMovesFlagsOnly(w, i, d, env, n);
    }
  }

  // ----- Sessions -----

  /** The visit that takes the slot over for row i, given that the activation succeeds. */
  ghost predicate TakesOver(w: World, i: nat, env: Env)
    requires WellFormed(w)
  {
    && i < |w.rows| && w.rows[i].active && !Driven(w, i)
    && Driven(AfterVisit(w, i, env), i)
  }

  /** What the row is told about the slot it took over. */
  ghost function Learned(w: World, i: nat, env: Env): SlotRead
    requires WellFormed(w) && TakesOver(w, i, env)
  {
    var row := w.rows[i];
    var s := SlotOf(w, row.address).GetOr(FRESH);
    TakingOverIsActivating(w, i, env);
    Activating(row.address, s, |w.log|, env).data.value
  }

  lemma TakingOverIsActivating(w: World, i: nat, env: Env)
    requires WellFormed(w) && TakesOver(w, i, env)
    ensures var row := w.rows[i];
            var s := SlotOf(w, row.address).GetOr(FRESH);
            var t := Activating(row.address, s, |w.log|, env);
            && s.phase != Active && t.phase == Active && t.data.Some?
            && VisitOf(w, i, env) == Activate(row, s, |w.log|, env)
            && SlotAt(AfterVisit(w, i, env), i) == t.slot.(phase := Active)
  {
    var row := w.rows[i];
    var s := SlotOf(w, row.address).GetOr(FRESH);
    AttemptIsValid(row.address, s, |w.log|, env);
    hide Activating, Operate;
  }

  /** Against a truthful station, what is due right after taking over is what the row learns, changed by what is left
      in the queue. */
  lemma TakingOverShowsDue(w: World, i: nat, env: Env, cs: Station, home: map<Address, Number>, n: int)
    requires WellFormed(w) && TakesOver(w, i, env) && 0 <= n <= 8
    requires Faithful(cs, home, AfterVisit(w, i, env).log)
    ensures var d := Learned(w, i, env);
            && AfterVisit(w, i, env).rows[i].functions == w.rows[i].functions
            && Due(AfterVisit(w, i, env), i, n)
                 == F.LastWrite(w.rows[i].functions.queue, n, FunctionBit(d.dirf, d.snd, n))
  {
    hide Activating, Faithful, CsAfter, FunctionBit;
    var row := w.rows[i];
    var s := SlotOf(w, row.address).GetOr(FRESH);
    var t := Activating(row.address, s, |w.log|, env);
    TakingOverIsActivating(w, i, env);
    var v := VisitOf(w, i, env);
    LogsConcat(cs, home, w.log, v.events);
    var now := CsAfter(cs, w.log);
    LogsConcat(now, home, t.events, [Reported(row.address, env.crash(|w.log| + |t.events|))]);
    HandshakeIsHarmless(now, home, row.address, s, |w.log|, env);
  }

  /** Sessions do begin: when the handshake succeeds, the first visit of a wanted loco takes its slot over. */
  lemma FirstVisitTakesOver(a: Address, env: Env)
    requires a.Valid() && Activating(a, FRESH, 0, env).phase == Active
    requires !env.crash(|Activating(a, FRESH, 0, env).events|)
    ensures var run := [AddRow(a), Throttle(0, Acquire)];
            && IsRun(run, env) && TakesOver(Exec(run, env), 0, env)
            && Learned(Exec(run, env), 0, env) == Activating(a, FRESH, 0, env).data.value
  {
    FirstSteps(a, env);
    AttemptIsValid(a, FRESH, 0, env);
    hide Activating;
  }

  ghost predicate InSession(steps: seq<Step>, i: nat) {
    forall k :: 0 <= k < |steps| ==> !EndsSession(steps[k], i)
  }

  ghost predicate NoAdopting(steps: seq<Step>, i: nat) {
    forall k :: 0 <= k < |steps| ==> !Adopts(steps[k], i)
  }

  /** What is due after more steps of a session: the last change asked for meanwhile, or else what was due before. */
  lemma {:induction false} DueAfter(run: seq<Step>, more: seq<Step>, env: Env, i: nat, n: int)
    requires IsRun(run + more, env) && IsRun(run, env) && InSession(more, i)
    requires Driven(Exec(run, env), i) && 0 <= n <= 8
    ensures Driven(Exec(run + more, env), i)
    ensures Due(Exec(run + more, env), i, n)
         == F.LastWrite(F.Changes(Exec(run, env).rows[i].functions, EventsAfter(run, more, env, i)), n,
                        Due(Exec(run, env), i, n))
    decreases |more|
  {
    hide Take, Due, EventOf, Driven;
    RunPrefix(run, more, env);
    assert i < |Exec(run, env).rows| by { IsInTable(Exec(run, env), i); }
    if more == [] {
      assert run + more == run;
    } else {
      var less, s := more[..|more| - 1], more[|more| - 1];
      DueAfter(run, less, env, i, n);
      TableAfter(run, less, env, i);
      var w, t := Exec(run + less, env), Exec(run, env).rows[i].functions;
      IsInTable(w, i);
      var before, now := EventsAfter(run, less, env, i), EventOf(w, s, env, i);
      StepMovesDue(w, s, env, i, n);
      F.RunInTwoParts(t, before, now);
      F.LastWriteOfConcat(F.Changes(t, before), F.Changes(F.Run(t, before), now), n, Due(Exec(run, env), i, n));
    }
  }

  /** The flags after more steps of a session without adoption: the last change asked for, or else as before. */
  lemma {:induction false} OnAfter(run: seq<Step>, more: seq<Step>, env: Env, i: nat, n: int)
    requires IsRun(run + more, env) && IsRun(run, env) && InSession(more, i) && NoAdopting(more, i)
    requires Driven(Exec(run, env), i) && 0 <= n <= 8
    ensures i < |Exec(run + more, env).rows|
    ensures F.On(Exec(run + more, env).rows[i].functions, n)
         == F.LastWrite(F.Changes(Exec(run, env).rows[i].functions, EventsAfter(run, more, env, i)), n,
                        F.On(Exec(run, env).rows[i].functions, n))
    decreases |more|
  {
    hide Take, Due, EventOf, Driven, F.On;
    RunPrefix(run, more, env);
    IsInTable(Exec(run, env), i);
    if more == [] {
      assert run + more == run;
    } else {
      var less, s := more[..|more| - 1], more[|more| - 1];
      OnAfter(run, less, env, i, n);
      DueAfter(run, less, env, i, n);
      TableAfter(run, less, env, i);
      var w, t := Exec(run + less, env), Exec(run, env).rows[i].functions;
      var before, now := EventsAfter(run, less, env, i), EventOf(w, s, env, i);
      StepMovesDue(w, s, env, i, n);
      IsInTable(Take(w, s, env), i);
      F.RunInTwoParts(t, before, now);
      F.LastWriteOfConcat(F.Changes(t, before), F.Changes(F.Run(t, before), now), n, F.On(t, n));
    }
  }

  /** Changes queued when the slot is taken over, and those asked for until the throttle adopts what it learnt. */
  ghost function Early(run: seq<Step>, wait: seq<Step>, env: Env, i: nat): seq<F.FunctionState>
    requires IsRun(run, env) && IsRun(run + [Scan(i)] + wait, env)
  {
    var t := TableOf(Exec(run, env), i);
    t.queue + F.Changes(t, EventsAfter(run + [Scan(i)], wait, env, i))
  }

  /** What is due at the moment of adoption. */
  lemma DueAtAdoption(run: seq<Step>, wait: seq<Step>, env: Env, i: nat,
                      cs: Station, home: map<Address, Number>, n: int)
    requires IsRun(run, env) && TakesOver(Exec(run, env), i, env) && IsRun(run + [Scan(i)] + wait, env)
    requires Faithful(cs, home, AfterVisit(Exec(run, env), i, env).log) && InSession(wait, i) && 0 <= n <= 8
    ensures var w, d := Exec(run + [Scan(i)] + wait, env), Learned(Exec(run, env), i, env);
            && Driven(w, i)
            && Due(w, i, n) == F.LastWrite(Early(run, wait, env, i), n, FunctionBit(d.dirf, d.snd, n))
  {
    hide Take, AfterVisit, Learned, Due, Faithful, FunctionBit;
    var w, taken := Exec(run, env), run + [Scan(i)];
    var d, t := Learned(w, i, env), w.rows[i].functions;
    RunPrefix(taken, wait, env);
    TakingOverIsAStep(run, env, i);
    TakingOverShowsDue(w, i, env, cs, home, n);
    DueAfter(taken, wait, env, i, n);
    F.LastWriteOfConcat(t.queue, F.Changes(t, EventsAfter(taken, wait, env, i)), n, FunctionBit(d.dirf, d.snd, n));
  }

  /** Take the slot over, wait, and adopt what was learnt. */
  ghost function Adopted(run: seq<Step>, wait: seq<Step>, env: Env, i: nat): seq<Step>
    requires IsRun(run, env) && TakesOver(Exec(run, env), i, env)
  {
    run + [Scan(i)] + wait + [Throttle(i, Adopt(ReplyOf(Learned(Exec(run, env), i, env))))]
  }

  /** The steps of a session: take the slot over, wait, adopt what was learnt, and command. */
  ghost function SessionSteps(run: seq<Step>, wait: seq<Step>, more: seq<Step>, env: Env, i: nat): seq<Step>
    requires IsRun(run, env) && TakesOver(Exec(run, env), i, env)
  {
    Adopted(run, wait, env, i) + more
  }

  /** Any steps of the system between takeover and adoption and after it, but for the end of the session. */
  ghost predicate IsSession(run: seq<Step>, wait: seq<Step>, more: seq<Step>, env: Env, i: nat) {
    && IsRun(run, env) && TakesOver(Exec(run, env), i, env)
    && InSession(wait, i) && InSession(more, i) && NoAdopting(more, i)
    && IsRun(run + [Scan(i)] + wait, env) && IsRun(Adopted(run, wait, env, i), env)
    && IsRun(SessionSteps(run, wait, more, env, i), env)
  }

  /** Changes asked for since the adoption. */
  ghost function Later(run: seq<Step>, wait: seq<Step>, more: seq<Step>, env: Env, i: nat): seq<F.FunctionState>
    requires IsSession(run, wait, more, env, i)
  {
    var adopted := Adopted(run, wait, env, i);
    F.Changes(TableOf(Exec(adopted, env), i), EventsAfter(adopted, more, env, i))
  }

  /** Fn as the slot was read when it was taken over. */
  ghost predicate AsRead(run: seq<Step>, env: Env, i: nat, n: int)
    requires IsRun(run, env) && TakesOver(Exec(run, env), i, env) && 0 <= n <= 8
  {
    var d := Learned(Exec(run, env), i, env);
    FunctionBit(d.dirf, d.snd, n)
  }

  lemma AtAdoption(run: seq<Step>, wait: seq<Step>, more: seq<Step>, env: Env, i: nat,
                   cs: Station, home: map<Address, Number>, n: int)
    requires IsSession(run, wait, more, env, i) && 0 <= n <= 8
    requires Faithful(cs, home, AfterVisit(Exec(run, env), i, env).log)
    ensures var w := Exec(Adopted(run, wait, env, i), env);
            && Driven(w, i)
            && Due(w, i, n) == F.LastWrite(Early(run, wait, env, i), n, AsRead(run, env, i, n))
            && F.On(w.rows[i].functions, n) == AsRead(run, env, i, n)
  {
    hide InStep, Take, Possible, AfterVisit, TakesOver, Learned, Due, Faithful, FunctionBit, Early, Driven, F.On;
    var d := Learned(Exec(run, env), i, env);
    var adopt, waited := Throttle(i, Adopt(ReplyOf(d))), run + [Scan(i)] + wait;
    DueAtAdoption(run, wait, env, i, cs, home, n);
    AdoptMovesFlagsOnly(Exec(waited, env), i, d, env, n);
    OneMoreStep(waited, adopt, env);
    IsInTable(Exec(waited + [adopt], env), i);
  }

  /**
   A session takes over a slot, adopts what it learnt some time later, and commands freely. In every later
   state the station's Fn, once the queue is drained, is the slot's Fn as read, changed by the early changes
   (queued before, or asked for until the adoption) and then by the later ones; the throttle side's flag knows
   of the later ones only. So both are the same exactly when the early changes leave Fn as it was
   read, or some later change is for Fn.
   */
  lemma SessionFollows(run: seq<Step>, wait: seq<Step>, more: seq<Step>, env: Env, i: nat,
                       cs: Station, home: map<Address, Number>, n: int)
    requires IsSession(run, wait, more, env, i) && 0 <= n <= 8
    requires Faithful(cs, home, AfterVisit(Exec(run, env), i, env).log)
    ensures var w, bit := Exec(SessionSteps(run, wait, more, env, i), env), AsRead(run, env, i, n);
            var early, later := Early(run, wait, env, i), Later(run, wait, more, env, i);
            && Driven(w, i)
            && Due(w, i, n) == F.LastWrite(early + later, n, bit)
            && F.On(w.rows[i].functions, n) == F.LastWrite(later, n, bit)
            && (Due(w, i, n) == F.On(w.rows[i].functions, n) <==>
                  F.LastWrite(early, n, bit) == bit || F.Mentions(later, n))
  {
    hide Take, AfterVisit, TakesOver, Learned, Due, Faithful, AsRead, Early, Driven, F.On, F.Mentions;
    var adopted := Adopted(run, wait, env, i);
    var early, later, bit := Early(run, wait, env, i), Later(run, wait, more, env, i), AsRead(run, env, i, n);
    AtAdoption(run, wait, more, env, i, cs, home, n);
    IsInTable(Exec(adopted, env), i);
    DueAfter(adopted, more, env, i, n);
    OnAfter(adopted, more, env, i, n);
    F.LastWriteOfConcat(early, later, n, bit);
    F.StartMattersUnlessMentioned(later, n, F.LastWrite(early, n, bit), bit);
  }

  /** In step in a later state exactly when each of F0..F8 is left as read by the early changes or commanded later. */
  lemma SessionKeepsFunctions(run: seq<Step>, wait: seq<Step>, more: seq<Step>, env: Env, i: nat,
                              cs: Station, home: map<Address, Number>)
    requires IsSession(run, wait, more, env, i)
    requires Faithful(cs, home, AfterVisit(Exec(run, env), i, env).log)
    ensures InStep(Exec(SessionSteps(run, wait, more, env, i), env), i) <==>
              forall n :: 0 <= n <= 8 ==>
                || F.LastWrite(Early(run, wait, env, i), n, AsRead(run, env, i, n)) == AsRead(run, env, i, n)
                || F.Mentions(Later(run, wait, more, env, i), n)
  {
    hide Take, AfterVisit, TakesOver, Learned, Due, Faithful, AsRead, Early, Later, Driven, F.On, F.Mentions;
    var w := Exec(SessionSteps(run, wait, more, env, i), env);
    SessionFollows(run, wait, more, env, i, cs, home, 0);
    IsInTable(w, i);
    forall n | 0 <= n <= 8
      ensures Driven(w, i)
      ensures Due(w, i, n) == F.On(w.rows[i].functions, n) <==>
                || F.LastWrite(Early(run, wait, env, i), n, AsRead(run, env, i, n)) == AsRead(run, env, i, n)
                || F.Mentions(Later(run, wait, more, env, i), n)
    {
      SessionFollows(run, wait, more, env, i, cs, home, n);
    }
  }

  lemma TakingOverIsAStep(run: seq<Step>, env: Env, i: nat)
    requires IsRun(run, env) && IsRun(run + [Scan(i)], env) && i < |Exec(run, env).rows|
    ensures Exec(run + [Scan(i)], env) == AfterVisit(Exec(run, env), i, env)
  {
    assert (run + [Scan(i)])[..|run|] == run;
  }

  // ----- End to end -----

  /** The send loop is a run of visits. */
  lemma {:induction false} ScanIsARun(run: seq<Step>, env: Env, i: nat, polls: nat) returns (more: seq<Step>)
    requires IsRun(run, env) && i <= |Exec(run, env).rows|
    ensures IsRun(run + more, env) && Exec(run + more, env) == ScanFrom(Exec(run, env), i, polls, env).world
    ensures forall k :: 0 <= k < |more| ==> more[k].Scan?
    decreases |Exec(run, env).rows| - i
  {
    hide ScanFrom, AfterVisit, VisitOf;
    var w := Exec(run, env);
    ScanUnfolds(w, i, polls, env);
    if i == |w.rows| || polls == 0 {
      more := [];
      assert run + [] == run;
    } else {
      assert (run + [Scan(i)])[..|run|] == run;
      if VisitOf(w, i, env).crashed {
        more := [Scan(i)];
      } else {
        var rest := ScanIsARun(run + [Scan(i)], env, i + 1, polls - 1);
        more := [Scan(i)] + rest;
        assert run + more == run + [Scan(i)] + rest;
      }
    }
  }

  lemma OperationUnfolds(w: World, polls: nat, env: Env)
    requires WellFormed(w)
    ensures polls == 0 ==> Operation(w, polls, env).world == w
    ensures polls > 0 ==>
              var r := ScanFrom(w, 0, polls - 1, env);
              Operation(w, polls, env).world
                == if r.crashed || r.stopped then r.world else Operation(r.world, r.polls, env).world
  {
    hide ScanFrom, WellFormed;
  }

  lemma {:induction false} OperationIsARun(run: seq<Step>, env: Env, polls: nat) returns (more: seq<Step>)
    requires IsRun(run, env)
    ensures IsRun(run + more, env) && Exec(run + more, env) == Operation(Exec(run, env), polls, env).world
    ensures forall k :: 0 <= k < |more| ==> more[k].Scan?
    decreases polls
  {
    hide ScanFrom, WellFormed, Operation, Exec, IsRun;
    OperationUnfolds(Exec(run, env), polls, env);
    if polls == 0 {
      more := [];
      assert run + [] == run;
    } else {
      var w := Exec(run, env);
      var pass := ScanIsARun(run, env, 0, polls - 1);
      var r := ScanFrom(w, 0, polls - 1, env);
      if r.crashed || r.stopped {
        more := pass;
      } else {
        var rest := OperationIsARun(run + pass, env, r.polls);
        more := pass + rest;
        assert run + more == run + pass + rest;
      }
    }
  }

  /**
   The station's slot for this row holds the speed and the direction that the row asks for: 1 for an
   emergency stop, 0 for stop, one more than the speed above, and bit 0x20 of DIRF for Reverse.
   */
  ghost predicate StationMoves(cs: Station, home: map<Address, Number>, row: Row) {
    && row.address in home && home[row.address] in cs
    && IsSpeedCode(cs[home[row.address]].spd, row.speed)
    && (cs[home[row.address]].dirf & 0x20 != 0 <==> row.direction == Reverse)
  }

  /** Fn in the station's slot for this row. */
  ghost predicate StationFunction(cs: Station, home: map<Address, Number>, row: Row, n: int)
    requires StationMoves(cs, home, row) && 0 <= n <= 8
  {
    FunctionBit(cs[home[row.address]].dirf, cs[home[row.address]].snd, n)
  }

  /** Speed, direction and F0..F8 are as the row has them. */
  ghost predicate StationHolds(cs: Station, home: map<Address, Number>, row: Row) {
    && StationMoves(cs, home, row)
    && forall n :: 0 <= n <= 8 ==> StationFunction(cs, home, row, n) == F.On(row.functions, n)
  }

  lemma ServedHoldsDue(w: World, i: nat, cs: Station, home: map<Address, Number>, n: int)
    requires WellFormed(w) && Driven(w, i) && Served(w, i) && 0 <= n <= 8
    requires InSync(cs, home, w.rows[i].address, SlotOf(w, w.rows[i].address))
    ensures StationMoves(cs, home, w.rows[i]) && StationFunction(cs, home, w.rows[i], n) == Due(w, i, n)
  {
    hide FunctionBit, SpeedByte, DirectionOf, IsSpeedCode;
    assert ValidRow(w.rows[i]);
    CodeOfSpeed(SlotAt(w, i).speed.value, w.rows[i].speed);
    DirectionIsBit(SlotAt(w, i).dirf.value, false);
  }

  /** Visits of the send thread ask for no changes. */
  lemma {:induction false} VisitsAskNothing(run: seq<Step>, more: seq<Step>, env: Env, i: nat, t: F.Table)
    requires IsRun(run + more, env) && forall k :: 0 <= k < |more| ==> more[k].Scan?
    ensures F.Changes(t, EventsAfter(run, more, env, i)) == []
    decreases |more|
  {
    hide VisitOf, WellFormed, F.Run, Take, IsRun, Exec, Possible;
    RunPrefix(run, more, env);
    if more != [] {
      var less, s := more[..|more| - 1], more[|more| - 1];
      VisitsAskNothing(run, less, env, i, t);
      var before, now := EventsAfter(run, less, env, i), EventOf(Exec(run + less, env), s, env, i);
      F.RunInTwoParts(t, before, now);
      ChangesOfOne(F.Run(t, before), F.Dequeue);
    }
  }

  /**
   Leave the rows alone while a slot is held. When the send loop has come to rest, the command station
   holds the speed and the direction that were asked for, and F0..F8 as they were due.
   */
  lemma StationAtRest(run: seq<Step>, env: Env, i: nat, polls: nat, cs: Station, home: map<Address, Number>, n: int)
    requires IsRun(run, env) && Driven(Exec(run, env), i) && CalmFrom(env, |Exec(run, env).log|)
    requires (Weight(Exec(run, env)) + 1) * (|Exec(run, env).rows| + 1) <= polls && 0 <= n <= 8
    requires Injective(home) && Faithful(cs, home, Operation(Exec(run, env), polls, env).world.log)
    ensures var w, w1 := Exec(run, env), Operation(Exec(run, env), polls, env).world;
            && i < |w.rows| && SameRequests(w, w1)
            && StationMoves(CsAfter(cs, w1.log), home, w.rows[i])
            && StationFunction(CsAfter(cs, w1.log), home, w.rows[i], n) == Due(w, i, n)
  {
    hide Operation, IsRun, CsAfter, Faithful, Weight, CalmFrom, InSync, Due, Driven, Served, Take, Possible;
    hide EventsAfter;
    var w := Exec(run, env);
    IsInTable(w, i);
    var more := OperationIsARun(run, env, polls);
    NormalOperationConverges(w, polls, env);
    DueAfter(run, more, env, i, n);
    VisitsAskNothing(run, more, env, i, w.rows[i].functions);
    var w1 := Exec(run + more, env);
    LastSentIsWhatTheStationHolds(run + more, env, cs, home, w1.rows[i].address);
    hide Exec;
    ServedHoldsDue(w1, i, CsAfter(cs, w1.log), home, n);
    SameRowMoves(CsAfter(cs, w1.log), home, w.rows[i], w1.rows[i], n);
  }

  /** So at rest the station has the last speed and the last direction that throttles asked for or adopted. */
  lemma StationHasLastCommands(run: seq<Step>, env: Env, i: nat, polls: nat, cs: Station, home: map<Address, Number>)
    requires IsRun(run, env) && Driven(Exec(run, env), i) && CalmFrom(env, |Exec(run, env).log|)
    requires (Weight(Exec(run, env)) + 1) * (|Exec(run, env).rows| + 1) <= polls
    requires Injective(home) && Faithful(cs, home, Operation(Exec(run, env), polls, env).world.log)
    ensures var a, cs1 := Exec(run, env).rows[i].address, CsAfter(cs, Operation(Exec(run, env), polls, env).world.log);
            && a in home && home[a] in cs1 && LastWanted(CommandsOf(run, i))
            && IsSpeedCode(cs1[home[a]].spd, LastSpeed(CommandsOf(run, i)))
            && (cs1[home[a]].dirf & 0x20 != 0 <==> LastDirection(CommandsOf(run, i)) == Reverse)
  {
    hide Operation, IsRun, Exec, CsAfter, Faithful, Weight, CalmFrom, IsSpeedCode, CommandsOf, StationFunction;
    hide LastSpeed, LastDirection, LastWanted, SameRequests, Due;
    StationAtRest(run, env, i, polls, cs, home, 0);
    RowIsItsLastCommands(run, env, i);
  }

  lemma SameRowMoves(cs: Station, home: map<Address, Number>, row: Row, row1: Row, n: int)
    requires StationMoves(cs, home, row1) && row1 == row.(functions := row1.functions) && 0 <= n <= 8
    ensures StationMoves(cs, home, row) && StationFunction(cs, home, row, n) == StationFunction(cs, home, row1, n)
  {
    hide FunctionBit, IsSpeedCode;
  }

  /** In particular, from a session in step the station ends up with everything as the throttle side has it. */
  lemma StationEndsUpAsRequested(run: seq<Step>, env: Env, i: nat, polls: nat, cs: Station, home: map<Address, Number>)
    requires IsRun(run, env) && InStep(Exec(run, env), i) && CalmFrom(env, |Exec(run, env).log|)
    requires (Weight(Exec(run, env)) + 1) * (|Exec(run, env).rows| + 1) <= polls
    requires Injective(home) && Faithful(cs, home, Operation(Exec(run, env), polls, env).world.log)
    ensures var w, w1 := Exec(run, env), Operation(Exec(run, env), polls, env).world;
            && i < |w.rows| && SameRequests(w, w1)
            && StationHolds(CsAfter(cs, w1.log), home, w.rows[i])
  {
    hide Operation, IsRun, Exec, CsAfter, Faithful, Weight, CalmFrom, Due, Driven, StationMoves, StationFunction, F.On;
    hide SameRequests, WellFormed;
    StationAtRest(run, env, i, polls, cs, home, 0);
    var w, cs1 := Exec(run, env), CsAfter(cs, Operation(Exec(run, env), polls, env).world.log);
    forall n | 0 <= n <= 8
      ensures StationMoves(cs1, home, w.rows[i])
      ensures StationFunction(cs1, home, w.rows[i], n) == F.On(w.rows[i].functions, n)
    {
      StationAtRest(run, env, i, polls, cs, home, n);
    }
  }

  lemma IsInTable(w: World, i: nat)
    requires Driven(w, i)
    ensures i < |w.rows|
  {
  }

  lemma {:induction false} LogGrows(run: seq<Step>, more: seq<Step>, env: Env)
    requires IsRun(run + more, env)
    ensures IsRun(run, env) && Exec(run, env).log <= Exec(run + more, env).log
    decreases |more|
  {
    hide Take, Possible, WellFormed, Exec, IsRun;
    RunPrefix(run, more, env);
    if more == [] {
      assert run + more == run;
    } else {
      var less := run + more[..|more| - 1];
      LogGrows(run, more[..|more| - 1], env);
      TakeKeepsWellFormed(Exec(less, env), more[|more| - 1], env);
    }
  }

  lemma FaithfulBefore(cs: Station, home: map<Address, Number>, log: seq<Event>, longer: seq<Event>)
    requires log <= longer && Faithful(cs, home, longer)
    ensures Faithful(cs, home, log)
  {
    LogsConcat(cs, home, log, longer[|log|..]);
    assert log + longer[|log|..] == longer;
  }

  /** A session after which the rows are left alone until the send loop has come to rest, against a truthful station. */
  ghost predicate ComesToRest(run: seq<Step>, wait: seq<Step>, more: seq<Step>, env: Env, i: nat, polls: nat,
                              cs: Station, home: map<Address, Number>) {
    && IsSession(run, wait, more, env, i)
    && var w := Exec(SessionSteps(run, wait, more, env, i), env);
       && CalmFrom(env, |w.log|) && (Weight(w) + 1) * (|w.rows| + 1) <= polls
       && Injective(home) && Faithful(cs, home, Operation(w, polls, env).world.log)
  }

  lemma FaithfulAtTakeover(run: seq<Step>, wait: seq<Step>, more: seq<Step>, env: Env, i: nat, polls: nat,
                           cs: Station, home: map<Address, Number>)
    requires ComesToRest(run, wait, more, env, i, polls, cs, home)
    ensures Faithful(cs, home, AfterVisit(Exec(run, env), i, env).log)
  {
    hide Operation, IsRun, Exec, CsAfter, Faithful, Weight, CalmFrom, TakesOver, Learned, WellFormed, InSession;
    hide AfterVisit, NoAdopting;
    var steps, taken := SessionSteps(run, wait, more, env, i), run + [Scan(i)];
    var rest := wait + [Throttle(i, Adopt(ReplyOf(Learned(Exec(run, env), i, env))))] + more;
    assert steps == taken + rest;
    var visits := OperationIsARun(steps, env, polls);
    LogGrows(steps, visits, env);
    LogGrows(taken, rest, env);
    TakesOverARow(Exec(run, env), i, env);
    TakingOverIsAStep(run, env, i);
    FaithfulBefore(cs, home, Exec(taken, env).log, Operation(Exec(steps, env), polls, env).world.log);
  }

  /**
   The whole session. Whatever happened before, take over a slot, adopt what was learnt, command freely
   among all other steps of the system, and then leave the rows alone. At rest the command station holds
   the speed and the direction that were asked for, and each of F0..F8 as the slot was read, changed by
   all changes asked for, early and late. The throttle side's flag is the last change or adopted state of
   all that this row was ever given. Both are the same exactly when the early changes leave
   Fn as it was read, or some later change is for Fn.
   */
  lemma WholeSession(run: seq<Step>, wait: seq<Step>, more: seq<Step>, env: Env, i: nat, polls: nat,
                     cs: Station, home: map<Address, Number>, n: int)
    requires ComesToRest(run, wait, more, env, i, polls, cs, home) && 0 <= n <= 8
    ensures var steps := SessionSteps(run, wait, more, env, i);
            var w, w1 := Exec(steps, env), Operation(Exec(steps, env), polls, env).world;
            var early, later, bit := Early(run, wait, env, i), Later(run, wait, more, env, i), AsRead(run, env, i, n);
            var cs1 := CsAfter(cs, w1.log);
            && i < |w.rows| && SameRequests(w, w1) && StationMoves(cs1, home, w.rows[i])
            && StationFunction(cs1, home, w.rows[i], n) == F.LastWrite(early + later, n, bit)
            && F.On(w.rows[i].functions, n) == F.LastWrite(later, n, bit)
            && F.On(w.rows[i].functions, n) == F.LastWrite(F.Writes(F.EMPTY, EventsOf(steps, env, i)), n, false)
            && (StationFunction(cs1, home, w.rows[i], n) == F.On(w.rows[i].functions, n) <==>
                  F.LastWrite(early, n, bit) == bit || F.Mentions(later, n))
  {
    hide Operation, Exec, CsAfter, Faithful, Weight, CalmFrom, TakesOver, Learned, Later, AsRead;
    hide WellFormed, InSession, NoAdopting, AfterVisit, SameRequests, Early, F.On, F.LastWrite, F.Writes, EventsOf;
    hide F.Mentions, StationMoves, StationFunction, SessionSteps, Driven, Due, IsRun;
    var steps := SessionSteps(run, wait, more, env, i);
    FaithfulAtTakeover(run, wait, more, env, i, polls, cs, home);
    SessionFollows(run, wait, more, env, i, cs, home, n);
    StationAtRest(steps, env, i, polls, cs, home, n);
    FunctionIsItsLastWrite(steps, env, i, n);
  }

  /** Without early changes that stand against what was learnt, the station ends up with all that was asked for. */
  lemma UndisturbedSession(run: seq<Step>, wait: seq<Step>, more: seq<Step>, env: Env, i: nat, polls: nat,
                           cs: Station, home: map<Address, Number>)
    requires ComesToRest(run, wait, more, env, i, polls, cs, home)
    requires forall n :: 0 <= n <= 8 ==>
               F.LastWrite(Early(run, wait, env, i), n, AsRead(run, env, i, n)) == AsRead(run, env, i, n)
    ensures var w := Exec(SessionSteps(run, wait, more, env, i), env);
            && i < |w.rows| && StationHolds(CsAfter(cs, Operation(w, polls, env).world.log), home, w.rows[i])
  {
    hide Operation, Exec, CsAfter, TakesOver, Learned, Later, AsRead, Early;
    hide WellFormed, SameRequests, F.On, F.LastWrite, F.Writes, EventsOf, F.Mentions;
    hide StationMoves, StationFunction, SessionSteps, IsRun;
    WholeSession(run, wait, more, env, i, polls, cs, home, 0);
    var w := Exec(SessionSteps(run, wait, more, env, i), env);
    var cs1 := CsAfter(cs, Operation(w, polls, env).world.log);
    forall n | 0 <= n <= 8
      ensures StationMoves(cs1, home, w.rows[i])
      ensures StationFunction(cs1, home, w.rows[i], n) == F.On(w.rows[i].functions, n)
    {
      WholeSession(run, wait, more, env, i, polls, cs, home, n);
    }
  }

  /**
   A session that is not in step: F0 is forced on before the slot is taken over and read with F0 off.
   The change is still queued when the throttle adopts F0 off, so the station's F0 goes on while the
   throttle side has it off.
   */
  lemma EarlyChangeStands(a: Address, env: Env, d: SlotRead)
    requires a.Valid() && env.answer(0) == SlotAnswer(d) && InUse(d) && IsOurs(d) && !env.crash(1)
    requires !FunctionBit(d.dirf, d.snd, 0)
    ensures var run := [AddRow(a), Throttle(0, Acquire)] + [Throttle(0, Function(F.Force(0, true)))];
            var steps := run + [Scan(0)] + [Throttle(0, Adopt(ReplyOf(d)))];
            && IsRun(run, env) && TakesOver(Exec(run, env), 0, env) && Learned(Exec(run, env), 0, env) == d
            && IsRun(steps, env) && !InStep(Exec(steps, env), 0)
            && Driven(Exec(steps, env), 0) && Due(Exec(steps, env), 0, 0)
            && !F.On(Exec(steps, env).rows[0].functions, 0)
  {
    hide InUse, IsOurs, IsRun, Exec, Address.Low, Address.High, FunctionBit;
    var two, force := [AddRow(a), Throttle(0, Acquire)], Throttle(0, Function(F.Force(0, true)));
    FirstSteps(a, env);
    OneMoreStep(two, force, env);
    OneMoreStep(two + [force], Scan(0), env);
    var w := Exec(two + [force] + [Scan(0)], env);
    assert w.rows[0].functions.queue == [F.FunctionState(0, true)];
    AdoptMovesFlagsOnly(w, 0, d, env, 0);
    OneMoreStep(two + [force] + [Scan(0)], Throttle(0, Adopt(ReplyOf(d))), env);
  }

  lemma TakesOverARow(w: World, i: nat, env: Env)
    requires WellFormed(w) && TakesOver(w, i, env)
    ensures i < |w.rows|
  {
  }
}
