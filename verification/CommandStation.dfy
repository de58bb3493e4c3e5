/**
 An ideal command station that applies every frame, and the proof that what the send thread
 remembers as last sent is what the station holds.
 */
module CommandStation {
  import opened Wrappers
  import opened Bits
  import opened Frames
  import opened Rows
  import opened SlotBridge
  import F = Functions

  /** The part of a slot that throttles control. */
  datatype Motion = Motion(spd: bv8, dirf: bv8, snd: bv8)

  datatype Number = Number(n: bv8)

  type Station = map<Number, Motion>

  function ApplyFrame(cs: Station, f: Frame): Station {
    match f
    case LocoSpd(n, v) => if Number(n) in cs then cs[Number(n) := cs[Number(n)].(spd := v)] else cs
    case LocoDirf(n, v) => if Number(n) in cs then cs[Number(n) := cs[Number(n)].(dirf := v)] else cs
    case LocoSnd(n, v) => if Number(n) in cs then cs[Number(n) := cs[Number(n)].(snd := v)] else cs
    case WrSlData(d) => if Number(d.slot) in cs then cs[Number(d.slot) := Motion(d.spd, d.dirf, d.snd)] else cs
    case _ => cs
  }

  function ApplyEvent(cs: Station, e: Event): Station {
    if e.Sent? then ApplyFrame(cs, e.frame) else cs
  }

  function CsAfter(cs: Station, log: seq<Event>): Station {
    if log == [] then cs else ApplyEvent(CsAfter(cs, log[..|log| - 1]), log[|log| - 1])
  }

  /** Each address lives in one slot of its own. */
  predicate Injective(home: map<Address, Number>) {
    forall a, b :: a in home && b in home && a != b ==> home[a] != home[b]
  }

  predicate Reports(cs: Station, n: Number, d: SlotRead) {
    Number(d.slot) == n && n in cs && cs[n] == Motion(d.spd, d.dirf, d.snd)
  }

  /** The station tells the truth about a slot, and commands reach it. Status and ids are free. */
  predicate FaithfulEvent(cs: Station, home: map<Address, Number>, e: Event) {
    e.Sent? ==>
      match e.frame
      case LocoAdr(_, _) => e.answer.SlotAnswer? ==> e.address in home && Reports(cs, home[e.address], e.answer.data)
      case MoveSlots(_, dest) => e.answer.SlotAnswer? ==> Reports(cs, Number(dest), e.answer.data)
      case WrSlData(_) => true
      case _ => e.answer == Acknowledged
  }

  predicate Faithful(cs: Station, home: map<Address, Number>, log: seq<Event>) {
    log == [] ||
    (Faithful(cs, home, log[..|log| - 1])
     && FaithfulEvent(CsAfter(cs, log[..|log| - 1]), home, log[|log| - 1]))
  }

  lemma {:induction false} LogsConcat(cs: Station, home: map<Address, Number>, x: seq<Event>, y: seq<Event>)
    ensures CsAfter(cs, x + y) == CsAfter(CsAfter(cs, x), y)
    ensures Faithful(cs, home, x + y) <==> Faithful(cs, home, x) && Faithful(CsAfter(cs, x), home, y)
  {
    if y == [] {
      assert x + y == x;
    } else {
      LogsConcat(cs, home, x, y[..|y| - 1]);
      assert (x + y)[..|x + y| - 1] == x + y[..|y| - 1];
    }
  }

  lemma LogOfNone(cs: Station, home: map<Address, Number>)
    ensures CsAfter(cs, []) == cs && Faithful(cs, home, [])
  {
  }

  lemma LogOfOne(cs: Station, home: map<Address, Number>, e: Event)
    ensures CsAfter(cs, [e]) == ApplyEvent(cs, e)
    ensures Faithful(cs, home, [e]) <==> FaithfulEvent(cs, home, e)
  {
    assert [e][..0] == [];
  }

  lemma LogOfTwo(cs: Station, home: map<Address, Number>, e: Event, f: Event)
    ensures CsAfter(cs, [e, f]) == ApplyEvent(ApplyEvent(cs, e), f)
    ensures Faithful(cs, home, [e, f]) <==> FaithfulEvent(cs, home, e) && FaithfulEvent(ApplyEvent(cs, e), home, f)
  {
    LogOfOne(cs, home, e);
    LogOfOne(ApplyEvent(cs, e), home, f);
    LogsConcat(cs, home, [e], [f]);
    assert [e] + [f] == [e, f];
  }

  lemma LogOfThree(cs: Station, home: map<Address, Number>, e: Event, f: Event, g: Event)
    ensures CsAfter(cs, [e, f, g]) == ApplyEvent(ApplyEvent(ApplyEvent(cs, e), f), g)
    ensures Faithful(cs, home, [e, f, g]) <==>
              && FaithfulEvent(cs, home, e) && FaithfulEvent(ApplyEvent(cs, e), home, f)
              && FaithfulEvent(ApplyEvent(ApplyEvent(cs, e), f), home, g)
  {
    LogOfTwo(cs, home, e, f);
    LogOfOne(CsAfter(cs, [e, f]), home, g);
    LogsConcat(cs, home, [e, f], [g]);
    assert [e, f] + [g] == [e, f, g];
  }

  // ----- Simulation -----

  /** The station's slot of address a holds what the slot memory calls last sent. */
  predicate InSync(cs: Station, home: map<Address, Number>, a: Address, slot: Option<Slot>) {
    slot.Some? && slot.value.phase == Active ==>
      && Ready(slot.value)
      && a in home && home[a] in cs && slot.value.number == Some(home[a].n)
      && cs[home[a]] == Motion(slot.value.speed.value, slot.value.dirf.value, slot.value.snd.value)
  }

  lemma WritingBack(cs: Station, d: SlotRead)
    requires Reports(cs, Number(d.slot), d)
    ensures ApplyFrame(cs, WrSlData(d)) == cs
  {
  }

  /** Taking over a slot moves no train: the id write puts back what the null move reported. */
  lemma HandshakeIsHarmless(cs: Station, home: map<Address, Number>, a: Address, slot: Slot, at: nat, env: Env)
    requires a.Valid() && Faithful(cs, home, Activating(a, slot, at, env).events)
    ensures var t := Activating(a, slot, at, env);
            && CsAfter(cs, t.events) == cs
            && (t.phase == Active ==>
                  && Ready(t.slot) && InSync(cs, home, a, Some(t.slot.(phase := Active)))
                  && t.data.Some? && Reports(cs, home[a], t.data.value))
  {
    hide InUse, IsOurs, CsAfter, Faithful;
    var t := Activating(a, slot, at, env);
    var events := t.events;
    if |events| == 1 {
      LogOfOne(cs, home, events[0]);
    } else if |events| == 2 {
      LogOfTwo(cs, home, events[0], events[1]);
    } else {
      LogOfThree(cs, home, events[0], events[1], events[2]);
      WritingBack(cs, events[2].frame.data);
    }
  }

  lemma ActivationInSync(cs: Station, home: map<Address, Number>, row: Row, slot: Slot, at: nat, env: Env)
    requires row.address.Valid() && Faithful(cs, home, Activate(row, slot, at, env).events) && slot.phase != Active
    ensures var v := Activate(row, slot, at, env);
            && CsAfter(cs, v.events) == cs
            && InSync(cs, home, row.address, v.slot)
  {
    var a := row.address;
    var t := Activating(a, slot, at, env);
    var report := Reported(a, env.crash(at + |t.events|));
    LogsConcat(cs, home, t.events, [report]);
    LogOfOne(CsAfter(cs, t.events), home, report);
    AttemptIsValid(a, slot, at, env);
    HandshakeIsHarmless(cs, home, a, slot, at, env);
    hide Activating, CsAfter, Faithful;
  }

  /** The frame carries exactly the change of the slot memory. */
  predicate Carries(s: Slot, s1: Slot, f: Frame) {
    && Ready(s) && Ready(s1) && s1.phase == s.phase && s1.number == s.number
    && match f
       case LocoSpd(n, v) => n == s.number.value && s1.speed == Some(v) && s1.dirf == s.dirf && s1.snd == s.snd
       case LocoDirf(n, v) => n == s.number.value && s1.speed == s.speed && s1.dirf == Some(v) && s1.snd == s.snd
       case LocoSnd(n, v) => n == s.number.value && s1.speed == s.speed && s1.dirf == s.dirf && s1.snd == Some(v)
       case _ => false
  }

  /** Nothing sent and nothing changed, or one frame that carries the change. */
  predicate SendsWhatItRemembers(slot: Slot, v: Visited) {
    && v.slot.Some? && |v.events| <= 1
    && (v.events == [] ==> v.slot.value == slot)
    && (v.events != [] ==> v.events[0].Sent? && Carries(slot, v.slot.value, v.events[0].frame))
  }

  lemma DirfCarries(row: Row, slot: Slot, mask: bv8, on: bool, at: nat, env: Env)
    requires Ready(slot) && With(slot.dirf.value, mask, on) <= 127
    ensures SendsWhatItRemembers(slot, SendDirf(row, slot, mask, on, at, env))
  {
    hide With;
  }

  lemma SndCarries(row: Row, slot: Slot, mask: bv8, on: bool, at: nat, env: Env)
    requires Ready(slot) && With(slot.snd.value, mask, on) <= 127
    ensures SendsWhatItRemembers(slot, SendSnd(row, slot, mask, on, at, env))
  {
    hide With;
  }

  lemma FunctionCarries(row: Row, slot: Slot, f: F.FunctionState, at: nat, env: Env)
    requires Ready(slot)
    ensures SendsWhatItRemembers(slot, SendFunction(row, slot, f, at, env))
  {
    hide With, DirfMask, SndMask, SendsWhatItRemembers, SendDirf, SendSnd, FunctionBit, DirectionOf;
    FunctionWriteIsLocal(slot.dirf.value, slot.snd.value, f.number, f.isOn, 0);
    if IsDirfFunction(f.number) {
      DirfCarries(row, slot, DirfMask(f.number), f.isOn, at, env);
    } else if IsSndFunction(f.number) {
      SndCarries(row, slot, SndMask(f.number), f.isOn, at, env);
    } else {
      NothingCarries(row, slot, true);
    }
  }

  lemma NothingCarries(row: Row, slot: Slot, found: bool)
    ensures SendsWhatItRemembers(slot, Visited(row, Some(slot), [], found, false))
  {
  }

  lemma SpeedCarries(row: Row, slot: Slot, stops: Int32, speed: bv8, at: nat, env: Env)
    requires Ready(slot) && speed <= 127
    ensures SendsWhatItRemembers(slot, SendSpeed(row, slot.(stops := stops), speed, at, env))
  {
  }

  lemma OperationCarries(row: Row, slot: Slot, at: nat, env: Env)
    requires ValidRow(row) && Ready(slot)
    ensures SendsWhatItRemembers(slot, Operate(row, slot, at, env))
  {
    hide With, DirectionOf, SpeedByte, SendsWhatItRemembers, SendSpeed, SendDirf, SendFunction, FunctionBit;
    if row.stops != slot.stops {
      SpeedCarries(row, slot, row.stops, 1, at, env);
    } else if slot.speed.value != SpeedByte(row.speed) {
      assert slot.(stops := slot.stops) == slot;
      SpeedCarries(row, slot, slot.stops, SpeedByte(row.speed), at, env);
    } else if DirectionOf(slot.dirf.value) != row.direction {
      DirectionWriteIsLocal(slot.dirf.value, 0, row.direction != Forward, 0);
      DirfCarries(row, slot, DIR, row.direction != Forward, at, env);
    } else if row.functions.queue != [] {
      FunctionCarries(row.(functions := F.Apply(row.functions, F.Dequeue)), slot, row.functions.queue[0], at, env);
    } else {
      NothingCarries(row, slot, false);
    }
  }

  lemma OperationInSync(cs: Station, home: map<Address, Number>, row: Row, slot: Slot, at: nat, env: Env)
    requires ValidRow(row) && Ready(slot) && slot.phase == Active
    requires InSync(cs, home, row.address, Some(slot))
    requires Faithful(cs, home, Operate(row, slot, at, env).events)
    ensures var v := Operate(row, slot, at, env);
            var cs1 := CsAfter(cs, v.events);
            && InSync(cs1, home, row.address, v.slot)
            && (forall m :: m in cs && m != home[row.address] ==> m in cs1 && cs1[m] == cs[m])
  {
    hide Operate, CsAfter, Faithful;
    var v := Operate(row, slot, at, env);
    OperateIsValid(row, slot, at, env);
    OperationCarries(row, slot, at, env);
    if v.events == [] {
      LogOfNone(cs, home);
    } else {
      assert v.events == [v.events[0]];
      LogOfOne(cs, home, v.events[0]);
    }
  }

  /** A visit keeps its own address in sync and touches no slot of another address. */
  lemma VisitInSync(cs: Station, home: map<Address, Number>, row: Row, known: Option<Slot>, at: nat, env: Env)
    requires ValidRow(row) && (known.Some? ==> ValidSlot(known.value))
    requires InSync(cs, home, row.address, known)
    requires Faithful(cs, home, Visit(row, known, at, env).events)
    ensures var v := Visit(row, known, at, env);
            var cs1 := CsAfter(cs, v.events);
            && InSync(cs1, home, row.address, v.slot)
            && (forall m :: m in cs && !(row.address in home && m == home[row.address]) ==> m in cs1 && cs1[m] == cs[m])
  {
    var s := known.GetOr(FRESH);
    if s.phase == Active {
      if row.active {
        OperationInSync(cs, home, row, s, at, env);
      } else {
        LogOfOne(cs, home, Deactivate(row, s, at, env).events[0]);
      }
    } else if row.active && (s.phase == Untouched || s.phase == Inactive) {
      ActivationInSync(cs, home, row, s, at, env);
    }
    hide Operate, Activate, Faithful;
  }

  lemma OthersStayInSync(cs: Station, cs1: Station, home: map<Address, Number>, a: Address, b: Address,
                         slot: Option<Slot>)
    requires Injective(home) && a != b && InSync(cs, home, b, slot)
    requires forall m :: m in cs && !(a in home && m == home[a]) ==> m in cs1 && cs1[m] == cs[m]
    ensures InSync(cs1, home, b, slot)
  {
  }

  lemma NothingHeldAtFirst(cs: Station, home: map<Address, Number>, a: Address)
    ensures InSync(CsAfter(cs, START.log), home, a, SlotOf(START, a))
  {
  }

  /**
   For every run against a station that tells the truth about its slots: last-sent speed, DIRF and
   SND of every Active slot are exactly what the station holds for that address.
   */
  lemma {:induction false} LastSentIsWhatTheStationHolds(run: seq<Step>, env: Env, cs: Station,
                                                         home: map<Address, Number>, a: Address)
    requires IsRun(run, env) && Injective(home) && Faithful(cs, home, Exec(run, env).log)
    ensures InSync(CsAfter(cs, Exec(run, env).log), home, a, SlotOf(Exec(run, env), a))
  {
    hide CsAfter, Faithful, InSync;
    if run == [] {
      NothingHeldAtFirst(cs, home, a);
    } else {
      var before, step := run[..|run| - 1], run[|run| - 1];
      var w := Exec(before, env);
      if step.Scan? {
        var row := w.rows[step.row];
        var known := SlotOf(w, row.address);
        var v := VisitOf(w, step.row, env);
        LogsConcat(cs, home, w.log, v.events);
        LastSentIsWhatTheStationHolds(before, env, cs, home, a);
        LastSentIsWhatTheStationHolds(before, env, cs, home, row.address);
        VisitIsValid(row, known, |w.log|, env);
        VisitInSync(CsAfter(cs, w.log), home, row, known, |w.log|, env);
        hide Visit, WellFormed, ValidSlot;
        if row.address != a {
          OthersStayInSync(CsAfter(cs, w.log), CsAfter(cs, w.log + v.events), home, row.address, a, SlotOf(w, a));
        }
      } else {
        LastSentIsWhatTheStationHolds(before, env, cs, home, a);
      }
    }
  }
}
