/** What the send thread does for a slot, told from the very bits and numbers in the slot's bytes. */
module SlotBytes {
  import opened Wrappers
  import opened Bits
  import opened Frames
  import opened Rows
  import opened SlotBridge
  import Fields
  import F = Functions

  // ----- Occupying a slot -----

  /** Status bits ACTIVE and BUSY, read as a number with ACTIVE first, are 3 exactly when both are set. */
  lemma BusyActiveIsThree(stat: bv8)
    ensures Fields.ReadGroup(map[0 := stat], [Fields.Mapping(0, 0x10), Fields.Mapping(0, 0x20)]) == 3
       <==> stat & 0x30 == 0x30
  {
    var cells := map[0 := stat];
    var low, high := Fields.Mapping(0, 0x10), Fields.Mapping(0, 0x20);
    var a: bv32, b: bv32 := if Has(stat, 0x10) then 1 else 0, if Has(stat, 0x20) then 1 else 0;
    assert [low, high][1..] == [high] && [high][1..] == [];
    assert Fields.ReadGroup(cells, []) == 0;
    assert Fields.ReadGroup(cells, [high]) == Fields.Or(b, Fields.Double(0));
    assert Fields.ReadGroup(cells, [low, high]) == Fields.Or(a, Fields.Double(Fields.ReadGroup(cells, [high])));
    BothBits(stat);
  }

  lemma BothBits(stat: bv8)
    ensures stat & 0x30 == 0x30 <==> Has(stat, 0x10) && Has(stat, 0x20)
  {
    assert stat & 0x30 == (stat & 0x20) | (stat & 0x10);
    assert stat & 0x20 == 0 || stat & 0x20 == 0x20;
    assert stat & 0x10 == 0 || stat & 0x10 == 0x10;
  }

  predicate HasIds(d: SlotRead, id1: bv8, id2: bv8) {
    d.id1 == id1 && d.id2 == id2
  }

  /** An attempt begins with the lookup of the address, and without slot data in answer it ends there. */
  lemma LookupFirst(a: Address, s: Slot, at: nat, env: Env)
    requires a.Valid()
    ensures var t := Activating(a, s, at, env);
            && t.events != [] && t.events[0].Sent? && t.events[0].frame.LocoAdr?
            && t.events[0].frame.adr as int == a.number % 128 && t.events[0].frame.adrHigh as int == a.number / 128
            && (!env.answer(at).SlotAnswer? ==> |t.events| == 1 && t.phase == Failed)
  {
    hide InUse, IsOurs, WithOurId, Address.Low, Address.High;
    AddressBytes(a);
  }

  /** A slot in use is taken as it is or left alone: nothing more is sent, and the ids decide. */
  lemma InUseDecides(a: Address, s: Slot, at: nat, env: Env)
    requires a.Valid() && env.answer(at).SlotAnswer? && env.answer(at).data.stat & 0x30 == 0x30
    ensures var t, d := Activating(a, s, at, env), env.answer(at).data;
            && |t.events| == 1
            && t.phase == (if HasIds(d, 42, 1) then Active else Occupied)
            && t.data == (if HasIds(d, 42, 1) then Some(d) else None)
  {
    hide InUse, WithOurId, Address.Low, Address.High;
    InUseIsBothBits(env.answer(at).data);
  }

  /**
   Any other slot (FREE, IDLE, COMMON) is asked for with a null move, whoever's ids it shows. What that reports
   is ours already, or gets our ids; it is never given up as occupied.
   */
  lemma OthersAreMoved(a: Address, s: Slot, at: nat, env: Env)
    requires a.Valid() && env.answer(at).SlotAnswer? && env.answer(at).data.stat & 0x30 != 0x30
    ensures var t, d, moved := Activating(a, s, at, env), env.answer(at).data, env.answer(at + 1);
            && |t.events| >= 2 && t.events[1] == Sent(a, MoveSlots(d.slot, d.slot), moved)
            && t.phase != Occupied
            && (!moved.SlotAnswer? ==> |t.events| == 2 && t.phase == Failed)
            && (moved.SlotAnswer? && HasIds(moved.data, 42, 1) ==>
                  |t.events| == 2 && t.phase == Active && t.data == Some(moved.data))
            && (moved.SlotAnswer? && !HasIds(moved.data, 42, 1) ==>
                  && |t.events| == 3
                  && t.events[2] == Sent(a, WrSlData(moved.data.(id1 := 42, id2 := 1)), env.answer(at + 2))
                  && (t.phase == Active <==> env.answer(at + 2) == Acknowledged)
                  && (t.phase == Active ==> t.data == Some(moved.data)))
  {
    hide InUse, Address.Low, Address.High;
    InUseIsBothBits(env.answer(at).data);
  }

  // ----- Operating a slot -----

  /** The one frame that an operation sends, if it sends one. */
  function FrameOf(v: Visited): Option<Frame> {
    if |v.events| == 1 && v.events[0].Sent? then Some(v.events[0].frame) else None
  }

  /** The byte for a requested speed: 1 is the emergency stop, 0 the stop, and step s is s + 1. */
  predicate IsSpeedCode(b: bv8, speed: int) {
    b as int == if speed == -1 then 1 else if speed == 0 then 0 else speed + 1
  }

  lemma CodeOfSpeed(b: bv8, speed: int)
    requires IsSpeed(speed) && b <= 127
    ensures IsSpeedCode(b, speed) <==> b == SpeedByte(speed)
  {
    SpeedCodes(speed, b);
  }

  /** With no stop pending, a speed byte that differs from the requested one is sent before anything else. */
  lemma SpeedFrame(row: Row, s: Slot, at: nat, env: Env)
    requires ValidRow(row) && Ready(s) && row.stops == s.stops && !IsSpeedCode(s.speed.value, row.speed)
    ensures var v := Operate(row, s, at, env);
            && FrameOf(v).Some? && FrameOf(v).value.LocoSpd? && FrameOf(v).value.slot == s.number.value
            && IsSpeedCode(FrameOf(v).value.spd, row.speed) && v.row == row
  {
    hide SpeedByte, IsSpeedCode;
    CodeOfSpeed(s.speed.value, row.speed);
    CodeOfSpeed(SpeedByte(row.speed), row.speed);
  }

  /** The direction comes next: its frame has bit 0x20 set exactly for Reverse, and F0..F4 as they were. */
  lemma DirectionFrame(row: Row, s: Slot, at: nat, env: Env)
    requires ValidRow(row) && Ready(s) && row.stops == s.stops && IsSpeedCode(s.speed.value, row.speed)
    requires (s.dirf.value & 0x20 != 0) != (row.direction == Reverse)
    ensures var v := Operate(row, s, at, env);
            && FrameOf(v).Some? && FrameOf(v).value.LocoDirf? && FrameOf(v).value.slot == s.number.value && v.row == row
            && (FrameOf(v).value.dirf & 0x20 != 0 <==> row.direction == Reverse)
            && FrameOf(v).value.dirf & 0xDF == s.dirf.value & 0xDF
  {
    hide SpeedByte, IsSpeedCode, With, DirectionOf;
    CodeOfSpeed(s.speed.value, row.speed);
    DirectionIsBit(s.dirf.value, row.direction != Forward);
  }

  lemma FunctionIsNext(row: Row, s: Slot, at: nat, env: Env)
    requires ValidRow(row) && Ready(s) && row.stops == s.stops && IsSpeedCode(s.speed.value, row.speed)
    requires (s.dirf.value & 0x20 != 0 <==> row.direction == Reverse) && row.functions.queue != []
    ensures var row1 := row.(functions := row.functions.(queue := row.functions.queue[1..]));
            Operate(row, s, at, env) == SendFunction(row1, s, row.functions.queue[0], at, env)
  {
    hide SpeedByte, IsSpeedCode, With, DirectionOf, SendFunction;
    CodeOfSpeed(s.speed.value, row.speed);
    DirectionIsBit(s.dirf.value, false);
  }

  /** F0..F4 go out in the slot's DIRF byte. */
  lemma DirfFunctionFrame(row: Row, s: Slot, f: F.FunctionState, at: nat, env: Env)
    requires Ready(s) && 0 <= f.number <= 4
    ensures var frame := FrameOf(SendFunction(row, s, f, at, env));
            && frame.Some? && frame.value.LocoDirf? && frame.value.slot == s.number.value
            && WritesBit(s.dirf.value, frame.value.dirf, [0x10, 0x01, 0x02, 0x04, 0x08][f.number], f.isOn)
  {
    hide With, WritesBit;
    WithWritesBit(s.dirf.value, DirfMask(f.number), f.isOn);
  }

  /** F5..F8 go out in its SND byte. */
  lemma SndFunctionFrame(row: Row, s: Slot, f: F.FunctionState, at: nat, env: Env)
    requires Ready(s) && 5 <= f.number <= 8
    ensures var frame := FrameOf(SendFunction(row, s, f, at, env));
            && frame.Some? && frame.value.LocoSnd? && frame.value.slot == s.number.value
            && WritesBit(s.snd.value, frame.value.snd, [0x01, 0x02, 0x04, 0x08][f.number - 5], f.isOn)
  {
    hide With, WritesBit;
    WithWritesBit(s.snd.value, SndMask(f.number), f.isOn);
  }

  /** Then one function change is taken from the queue. F0..F8 go out in their byte, higher ones are dropped. */
  lemma FunctionFrame(row: Row, s: Slot, at: nat, env: Env)
    requires ValidRow(row) && Ready(s) && row.stops == s.stops && IsSpeedCode(s.speed.value, row.speed)
    requires (s.dirf.value & 0x20 != 0 <==> row.direction == Reverse) && row.functions.queue != []
    ensures var v, f := Operate(row, s, at, env), row.functions.queue[0];
            var frame := FrameOf(v);
            && v.row == row.(functions := row.functions.(queue := row.functions.queue[1..]))
            && (0 <= f.number <= 4 ==>
                  && frame.Some? && frame.value.LocoDirf? && frame.value.slot == s.number.value
                  && WritesBit(s.dirf.value, frame.value.dirf, [0x10, 0x01, 0x02, 0x04, 0x08][f.number], f.isOn))
            && (5 <= f.number <= 8 ==>
                  && frame.Some? && frame.value.LocoSnd? && frame.value.slot == s.number.value
                  && WritesBit(s.snd.value, frame.value.snd, [0x01, 0x02, 0x04, 0x08][f.number - 5], f.isOn))
            && (f.number < 0 || f.number > 8 ==> v.events == [])
  {
    hide IsSpeedCode, WritesBit, Operate, FrameOf, With, DirfMask, SndMask;
    FunctionIsNext(row, s, at, env);
    var row1 := row.(functions := row.functions.(queue := row.functions.queue[1..]));
    var f := row.functions.queue[0];
    if 0 <= f.number <= 4 {
      DirfFunctionFrame(row1, s, f, at, env);
    } else if 5 <= f.number <= 8 {
      SndFunctionFrame(row1, s, f, at, env);
    }
  }

  /** The masked bit becomes `on`, and the others stay. */
  predicate WritesBit(before: bv8, after: bv8, mask: bv8, on: bool) {
    (after & mask != 0 <==> on) && after & !mask == before & !mask
  }

  lemma WithWritesBit(b: bv8, mask: bv8, on: bool)
    requires mask != 0
    ensures WritesBit(b, With(b, mask, on), mask, on)
  {
    if on {
      assert ((b & !mask) | mask) & mask == mask;
      assert ((b & !mask) | mask) & !mask == b & !mask;
    } else {
      assert (b & !mask) & mask == 0;
      assert (b & !mask) & !mask == b & !mask;
    }
  }

  /** And with nothing left to say, nothing is sent. */
  lemma NoFrame(row: Row, s: Slot, at: nat, env: Env)
    requires ValidRow(row) && Ready(s) && row.stops == s.stops && IsSpeedCode(s.speed.value, row.speed)
    requires (s.dirf.value & 0x20 != 0 <==> row.direction == Reverse) && row.functions.queue == []
    ensures Operate(row, s, at, env) == Visited(row, Some(s), [], false, false)
  {
    hide SpeedByte, IsSpeedCode, With, DirectionOf;
    CodeOfSpeed(s.speed.value, row.speed);
    DirectionIsBit(s.dirf.value, false);
  }
}
