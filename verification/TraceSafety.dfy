/**
 Safety of everything the send thread ever puts on the wire, judged from the log alone: a watcher
 follows the frames and answers of one address and rejects any frame out of turn.
 */
module TraceSafety {
  import opened Wrappers
  import opened Bits
  import opened Frames
  import opened Rows
  import opened SlotBridge

  /**
   Free: nothing is held. Moving and Writing: the handshake is under way for slot n, whose lookup
   showed status st. Held: the last handshake succeeded and was not released since.
   Broken: a frame was sent out of turn.
   */
  datatype Watch =
    | Free
    | Moving(n: bv8, st: bv8)
    | Writing(n: bv8, st: bv8, data: SlotRead)
    | Held(n: bv8, st: bv8)
    | Broken

  function AfterLookup(answer: Answer): Watch {
    match answer
    case SlotAnswer(d) =>
      if d.stat & 0x30 != 0x30 then Moving(d.slot, d.stat)
      else if d.id1 == 42 && d.id2 == 1 then Held(d.slot, d.stat)
      else Free  // in use by another device: nothing but a new lookup may follow
    case _ => Free
  }

  function AfterMove(n: bv8, st: bv8, answer: Answer): Watch {
    match answer
    case SlotAnswer(d) => if d.id1 == 42 && d.id2 == 1 then Held(n, st) else Writing(n, st, d)
    case _ => Free
  }

  /** The only frames allowed in each state, and where they lead. */
  function Next(s: Watch, e: Event, a: Address): Watch
    requires a.Valid()
  {
    if e.address != a then s
    else match e
      case Reported(_, crashed) => if crashed && s.Held? then Free else s
      case Sent(_, frame, answer) =>
        match (s, frame)
        case (Free, LocoAdr(low, high)) =>
          if low == a.Low() && high == a.High() then AfterLookup(answer) else Broken
        case (Moving(n, st), MoveSlots(src, dest)) =>
          if src == n && dest == n then AfterMove(n, st, answer) else Broken
        case (Writing(n, st, d), WrSlData(data)) =>
          if data != d.(id1 := 42, id2 := 1) then Broken else if answer == Acknowledged then Held(n, st) else Free
        case (Held(n, _), LocoSpd(slot, _)) => if slot == n then s else Broken
        case (Held(n, _), LocoDirf(slot, _)) => if slot == n then s else Broken
        case (Held(n, _), LocoSnd(slot, _)) => if slot == n then s else Broken
        case (Held(n, st), SlotStat1(slot, stat1)) => if slot == n && stat1 == st then Free else Broken
        case _ => Broken
  }

  function Judge(s: Watch, log: seq<Event>, a: Address): Watch
    requires a.Valid()
  {
    if log == [] then s else Next(Judge(s, log[..|log| - 1], a), log[|log| - 1], a)
  }

  lemma {:induction false} JudgeConcat(s: Watch, x: seq<Event>, y: seq<Event>, a: Address)
    requires a.Valid()
    ensures Judge(s, x + y, a) == Judge(Judge(s, x, a), y, a)
  {
    if y == [] {
      assert x + y == x;
    } else {
      JudgeConcat(s, x, y[..|y| - 1], a);
      assert (x + y)[..|x + y| - 1] == x + y[..|y| - 1];
    }
  }

  lemma {:induction false} JudgeOthers(s: Watch, events: seq<Event>, a: Address, b: Address)
    requires a.Valid() && AllFine(events, b) && a != b
    ensures Judge(s, events, a) == s
  {
    if events != [] { JudgeOthers(s, events[..|events| - 1], a, b); }
  }

  /** A log never recovers from a frame out of turn. */
  lemma {:induction false} BrokenStays(log: seq<Event>, i: nat, a: Address)
    requires a.Valid() && i <= |log| && Judge(Free, log[..i], a) == Broken
    ensures Judge(Free, log, a) == Broken
  {
    if i == |log| {
      assert log[..i] == log;
    } else {
      assert log[..|log| - 1][..i] == log[..i];
      BrokenStays(log[..|log| - 1], i, a);
    }
  }

  /** The slot memory and the watcher agree on who holds what. */
  predicate Agrees(s: Watch, slot: Option<Slot>) {
    && (s.Free? || s.Held?)
    && (s.Held? <==> slot.Some? && slot.value.phase == Active)
    && (s.Held? ==> slot.value.number == Some(s.n) && slot.value.stat1 == Some(s.st))
  }

  lemma JudgeOne(s: Watch, e: Event, a: Address)
    requires a.Valid()
    ensures Judge(s, [e], a) == Next(s, e, a)
  {
    assert [e][..0] == [];
  }

  lemma JudgeTwo(s: Watch, e: Event, f: Event, a: Address)
    requires a.Valid()
    ensures Judge(s, [e, f], a) == Next(Next(s, e, a), f, a)
  {
    JudgeOne(s, e, a);
    assert [e, f][..1] == [e];
  }

  lemma JudgeThree(s: Watch, e: Event, f: Event, g: Event, a: Address)
    requires a.Valid()
    ensures Judge(s, [e, f, g], a) == Next(Next(Next(s, e, a), f, a), g, a)
  {
    JudgeTwo(s, e, f, a);
    assert [e, f, g][..2] == [e, f];
  }

  lemma LookupInTurn(a: Address, answer: Answer)
    requires a.Valid()
    ensures Next(Free, Sent(a, LocoAdr(a.Low(), a.High()), answer), a) == AfterLookup(answer)
  {
    hide AfterLookup, Address.Low, Address.High;
  }

  lemma MoveInTurn(a: Address, n: bv8, st: bv8, answer: Answer)
    requires a.Valid()
    ensures Next(Moving(n, st), Sent(a, MoveSlots(n, n), answer), a) == AfterMove(n, st, answer)
  {
    hide AfterMove;
  }

  lemma WriteInTurn(a: Address, n: bv8, st: bv8, d: SlotRead, answer: Answer)
    requires a.Valid()
    ensures Next(Writing(n, st, d), Sent(a, WrSlData(WithOurId(d)), answer), a)
         == if answer == Acknowledged then Held(n, st) else Free
  {
  }

  /** The watcher reads status and ids of a lookup's answer bit by bit. */
  lemma LookupLeads(d: SlotRead)
    ensures AfterLookup(SlotAnswer(d))
         == if !InUse(d) then Moving(d.slot, d.stat) else if IsOurs(d) then Held(d.slot, d.stat) else Free
    ensures forall n, st :: AfterMove(n, st, SlotAnswer(d)) == if IsOurs(d) then Held(n, st) else Writing(n, st, d)
  {
    InUseIsBothBits(d);
  }

  /** The watcher is where an attempt with this outcome leaves it. */
  predicate EndsRight(s: Watch, t: Attempt) {
    && (s.Free? || s.Held?)
    && (s.Held? <==> t.phase == Active)
    && (s.Held? ==> t.slot.number == Some(s.n) && t.slot.stat1 == Some(s.st))
  }

  lemma AlwaysLooksUp(a: Address, slot: Slot, at: nat, env: Env)
    requires a.Valid()
    ensures Activating(a, slot, at, env).events != []
  {
    hide InUse, IsOurs, WithOurId, Address.Low, Address.High;
  }

  lemma LookupOnlyInTurn(a: Address, slot: Slot, at: nat, env: Env)
    requires a.Valid() && |Activating(a, slot, at, env).events| == 1
    ensures var t := Activating(a, slot, at, env); EndsRight(Judge(Free, t.events, a), t)
  {
    hide InUse, IsOurs, WithOurId, Judge, Next, Address.Low, Address.High;
    var events := Activating(a, slot, at, env).events;
    if env.answer(at).SlotAnswer? {
      LookupLeads(env.answer(at).data);
      hide AfterLookup;
    }
    LookupInTurn(a, events[0].answer);
    JudgeOne(Free, events[0], a);
  }

  /** What an attempt of two frames looks like. */
  lemma LookupAndMove(a: Address, slot: Slot, at: nat, env: Env)
    requires a.Valid() && |Activating(a, slot, at, env).events| == 2
    ensures env.answer(at).SlotAnswer? && !InUse(env.answer(at).data)
    ensures var t, d, answer := Activating(a, slot, at, env), env.answer(at).data, env.answer(at + 1);
            && t.events == [Sent(a, LocoAdr(a.Low(), a.High()), env.answer(at)),
                            Sent(a, MoveSlots(d.slot, d.slot), answer)]
            && t.slot == InitializeFromSlot(slot, d)
            && (t.phase == Active <==> answer.SlotAnswer?) && (answer.SlotAnswer? ==> IsOurs(answer.data))
  {
    hide InUse, IsOurs, WithOurId, InitializeFromSlot, Address.Low, Address.High;
  }

  lemma MoveSufficesInTurn(a: Address, slot: Slot, at: nat, env: Env)
    requires a.Valid() && |Activating(a, slot, at, env).events| == 2
    ensures var t := Activating(a, slot, at, env); EndsRight(Judge(Free, t.events, a), t)
  {
    hide InUse, IsOurs, WithOurId, Judge, Next, Activating, Address.Low, Address.High;
    LookupAndMove(a, slot, at, env);
    LookupLeads(env.answer(at).data);
    if env.answer(at + 1).SlotAnswer? { LookupLeads(env.answer(at + 1).data); }
    var t, d := Activating(a, slot, at, env), env.answer(at).data;
    LookupInTurn(a, env.answer(at));
    MoveInTurn(a, d.slot, d.stat, env.answer(at + 1));
    JudgeTwo(Free, t.events[0], t.events[1], a);
  }

  lemma LongHandshakeInTurn(a: Address, slot: Slot, at: nat, env: Env)
    requires a.Valid() && |Activating(a, slot, at, env).events| > 2
    ensures var t := Activating(a, slot, at, env); EndsRight(Judge(Free, t.events, a), t)
  {
    hide InUse, IsOurs, WithOurId, Judge, Next, Address.Low, Address.High;
    var events := Activating(a, slot, at, env).events;
    var d := events[0].answer.data;
    LookupLeads(d);
    LookupLeads(events[1].answer.data);
    hide AfterLookup, AfterMove;
    LookupInTurn(a, events[0].answer);
    MoveInTurn(a, d.slot, d.stat, events[1].answer);
    WriteInTurn(a, d.slot, d.stat, events[1].answer.data, events[2].answer);
    JudgeThree(Free, events[0], events[1], events[2], a);
  }

  /** The handshake is in turn, and ends in Held exactly when the activation succeeded. */
  lemma HandshakeInTurn(a: Address, slot: Slot, at: nat, env: Env)
    requires a.Valid()
    ensures var t := Activating(a, slot, at, env); EndsRight(Judge(Free, t.events, a), t)
  {
    hide Activating, EndsRight, Judge;
    if |Activating(a, slot, at, env).events| == 1 {
      LookupOnlyInTurn(a, slot, at, env);
    } else if |Activating(a, slot, at, env).events| == 2 {
      MoveSufficesInTurn(a, slot, at, env);
    } else {
      AlwaysLooksUp(a, slot, at, env);
      LongHandshakeInTurn(a, slot, at, env);
    }
  }

  lemma ReportInTurn(s: Watch, a: Address, crashed: bool)
    requires a.Valid()
    ensures Judge(s, [Reported(a, crashed)], a) == if crashed && s.Held? then Free else s
  {
    JudgeOne(s, Reported(a, crashed), a);
    hide Judge;
  }

  lemma ActivationInTurn(row: Row, slot: Slot, at: nat, env: Env)
    requires row.address.Valid() && slot.phase != Active
    ensures var v := Activate(row, slot, at, env);
            Agrees(Judge(Free, v.events, row.address), v.slot)
  {
    hide Activating, Judge, Next;
    var a := row.address;
    var t := Activating(a, slot, at, env);
    HandshakeInTurn(a, slot, at, env);
    AttemptIsValid(a, slot, at, env);
    var crashed := env.crash(at + |t.events|);
    JudgeConcat(Free, t.events, [Reported(a, crashed)], a);
    ReportInTurn(Judge(Free, t.events, a), a, crashed);
  }

  lemma OperationInTurn(row: Row, slot: Slot, at: nat, env: Env, s: Watch)
    requires ValidRow(row) && Ready(slot) && s == Held(slot.number.value, slot.stat1.value)
    ensures Judge(s, Operate(row, slot, at, env).events, row.address) == s
  {
    hide With, DirectionOf, DirfMask, SndMask, SpeedByte, Judge;
    var events := Operate(row, slot, at, env).events;
    if events == [] {
      JudgeNone(s, row.address);
    } else {
      JudgeOne(s, events[0], row.address);
    }
  }

  lemma JudgeNone(s: Watch, a: Address)
    requires a.Valid()
    ensures Judge(s, [], a) == s
  {
  }

  /** Whatever a visit sends is in turn, and the agreement holds again afterwards. */
  lemma VisitInTurn(row: Row, known: Option<Slot>, at: nat, env: Env, s: Watch)
    requires ValidRow(row) && (known.Some? ==> ValidSlot(known.value)) && Agrees(s, known)
    ensures var v := Visit(row, known, at, env);
            Agrees(Judge(s, v.events, row.address), v.slot)
  {
    var slot := known.GetOr(FRESH);
    JudgeNone(s, row.address);
    if slot.phase == Active {
      if row.active {
        OperateIsValid(row, slot, at, env);
        OperationInTurn(row, slot, at, env, s);
      } else {
        JudgeOne(s, Deactivate(row, slot, at, env).events[0], row.address);
      }
    } else if row.active && (slot.phase == Untouched || slot.phase == Inactive) {
      ActivationInTurn(row, slot, at, env);
    }
  }

  /**
   For every interleaving of throttle commands and visits, every behaviour of the command station
   and every exception while reporting: no frame is ever out of turn, and a slot counts as Active
   exactly while the wire shows it held, under the slot number and status byte of its own lookup.
   */
  lemma {:induction false} EveryFrameInTurn(run: seq<Step>, env: Env, a: Address)
    requires IsRun(run, env) && a.Valid()
    ensures Judge(Free, Exec(run, env).log, a) != Broken
    ensures Agrees(Judge(Free, Exec(run, env).log, a), SlotOf(Exec(run, env), a))
  {
    hide Take, Possible, Judge, Agrees, WellFormed;
    if run == [] {
      NothingHeldAtFirst(a);
    } else {
      var before, step := run[..|run| - 1], run[|run| - 1];
      var w := Exec(before, env);
      EveryFrameInTurn(before, env, a);
      StepInTurn(w, step, env, a);
    }
    AgreesIsUnbroken(Judge(Free, Exec(run, env).log, a), SlotOf(Exec(run, env), a));
  }

  lemma AgreesIsUnbroken(s: Watch, slot: Option<Slot>)
    requires Agrees(s, slot)
    ensures s != Broken
  {
  }

  lemma NothingHeldAtFirst(a: Address)
    requires a.Valid()
    ensures Agrees(Judge(Free, START.log, a), SlotOf(START, a))
  {
  }

  lemma StepInTurn(w: World, step: Step, env: Env, a: Address)
    requires WellFormed(w) && Possible(w, step) && a.Valid() && Agrees(Judge(Free, w.log, a), SlotOf(w, a))
    ensures Agrees(Judge(Free, Take(w, step, env).log, a), SlotOf(Take(w, step, env), a))
  {
    hide Visit, Judge, Agrees, AllFine, ValidSlot, Sendable, Obey;
    if step.Scan? {
      var row := w.rows[step.row];
      var known := SlotOf(w, row.address);
      var v := VisitOf(w, step.row, env);
      VisitIsValid(row, known, |w.log|, env);
      JudgeConcat(Free, w.log, v.events, a);
      if row.address == a {
        VisitInTurn(row, known, |w.log|, env, Judge(Free, w.log, a));
      } else {
        JudgeOthers(Judge(Free, w.log, a), v.events, a, row.address);
      }
    }
  }

  /** A frame that commands or releases a slot. */
  predicate Commands(f: Frame, n: bv8) {
    (f.LocoSpd? || f.LocoDirf? || f.LocoSnd? || f.SlotStat1?) && f.slot == n
  }

  /**
   Spelled out for single frames: a speed, direction, function or status frame for an address is
   only ever sent while its latest activation succeeded, for that slot, and was not released since.
   */
  lemma CommandsOnlyWhileHeld(run: seq<Step>, env: Env, i: nat, n: bv8)
    requires IsRun(run, env) && i < |Exec(run, env).log|
    requires var e := Exec(run, env).log[i]; e.Sent? && e.address.Valid() && Commands(e.frame, n)
    ensures var log := Exec(run, env).log;
            Judge(Free, log[..i], log[i].address).Held? && Judge(Free, log[..i], log[i].address).n == n
  {
    hide Exec, IsRun, Next, Judge, Agrees, SlotOf;
    var log := Exec(run, env).log;
    var a := log[i].address;
    EveryFrameInTurn(run, env, a);
    JudgeOneMore(log, i, a);
    if Judge(Free, log[..i + 1], a) == Broken {
      BrokenStays(log, i + 1, a);
    }
    CommandNeedsHeld(Judge(Free, log[..i], a), log[i], n);
  }

  lemma JudgeOneMore(log: seq<Event>, i: nat, a: Address)
    requires a.Valid() && i < |log|
    ensures Judge(Free, log[..i + 1], a) == Next(Judge(Free, log[..i], a), log[i], a)
  {
    hide Next;
    assert log[..i + 1][..i] == log[..i];
  }

  lemma CommandNeedsHeld(s: Watch, e: Event, n: bv8)
    requires e.Sent? && e.address.Valid() && Commands(e.frame, n) && Next(s, e, e.address) != Broken
    ensures s.Held? && s.n == n
  {
    hide AfterLookup, AfterMove, Address.Low, Address.High, WithOurId;
  }
}
