/** The send thread's objects. Each method is proved against the transition system of SlotBridge. */
module SendThread {
  import opened Wrappers
  import opened Bits
  import opened Frames
  import opened Rows
  import F = Functions
  import B = SlotBridge

  /** The connection as the send thread sees it: it records every frame with its answer. */
  class LoconetPort {
    const env: B.Env
    var log: seq<Event>

    constructor (env: B.Env)
      ensures this.env == env && log == []
    {
      this.env := env;
      log := [];
    }

    method Send(a: Address, f: Frame) returns (answer: Answer)
      requires Sendable(f)
      modifies this
      ensures log == old(log) + [B.Send(a, f, |old(log)|, env)]
      ensures answer == env.answer(|old(log)|)
    {
      answer := env.answer(|log|);
      log := log + [Sent(a, f, answer)];
    }

    /** Hands the result of an activation to whoever waits for it, which may raise an exception. */
    method Report(a: Address) returns (crashed: bool)
      modifies this
      ensures log == old(log) + [Reported(a, crashed)]
      ensures crashed == env.crash(|old(log)|)
    {
      crashed := env.crash(|log|);
      log := log + [Reported(a, crashed)];
    }
  }

  class SlotControl {
    const address: Address
    const port: LoconetPort
    var emergencyStopCounter: Int32
    var slotState: B.Phase
    var slotNumber: Option<bv8>
    var lastKnownStat1: Option<bv8>
    var lastSentSpeed: Option<bv8>
    var lastSentDirf: Option<bv8>
    var lastSentSnd: Option<bv8>

    ghost function Abs(): B.Slot reads this {
      B.Slot(slotState, emergencyStopCounter, slotNumber, lastKnownStat1, lastSentSpeed, lastSentDirf, lastSentSnd)
    }

    constructor (address: Address, port: LoconetPort)
      ensures this.address == address && this.port == port && Abs() == B.FRESH
    {
      this.address, this.port := address, port;
      slotState, emergencyStopCounter := B.Untouched, 0;
      slotNumber, lastKnownStat1, lastSentSpeed, lastSentDirf, lastSentSnd := None, None, None, None, None;
    }

    /** Tells whether the row's counter moved, and catches up with it. */
    method IsEmergencyStopRequested(counterInLocoTable: Int32) returns (requested: bool)
      modifies this`emergencyStopCounter
      ensures requested == (counterInLocoTable != old(emergencyStopCounter))
      ensures Abs() == old(Abs()).(stops := counterInLocoTable)
    {
      requested := counterInLocoTable != emergencyStopCounter;
      emergencyStopCounter := counterInLocoTable;
    }

    method SendSpeed(newSpeed: bv8)
      requires B.Ready(Abs()) && newSpeed <= 127
      modifies this`lastSentSpeed, port
      ensures Abs() == old(Abs()).(speed := Some(newSpeed))
      ensures port.log == old(port.log)
        + [B.Send(address, LocoSpd(old(slotNumber).value, newSpeed), |old(port.log)|, port.env)]
    {
      lastSentSpeed := Some(newSpeed);
      var _ := port.Send(address, LocoSpd(slotNumber.value, newSpeed));
    }

    method SendDirf(mask: bv8, newValue: bool)
      requires B.Ready(Abs()) && SingleBit(mask)
      modifies this`lastSentDirf, port
      ensures Abs() == old(Abs()).(dirf := Some(With(old(lastSentDirf).value, mask, newValue)))
      ensures port.log == old(port.log)
        + [B.Send(address, LocoDirf(slotNumber.value, lastSentDirf.value), |old(port.log)|, port.env)]
    {
      hide SingleBit, With;
      var requestedDirf := Masked(lastSentDirf.value, mask, newValue);
      lastSentDirf := Some(requestedDirf);
      var _ := port.Send(address, LocoDirf(slotNumber.value, requestedDirf));
    }

    method SendSnd(mask: bv8, newValue: bool)
      requires B.Ready(Abs()) && SingleBit(mask)
      modifies this`lastSentSnd, port
      ensures Abs() == old(Abs()).(snd := Some(With(old(lastSentSnd).value, mask, newValue)))
      ensures port.log == old(port.log)
        + [B.Send(address, LocoSnd(slotNumber.value, lastSentSnd.value), |old(port.log)|, port.env)]
    {
      hide SingleBit, With;
      var requestedSnd := Masked(lastSentSnd.value, mask, newValue);
      lastSentSnd := Some(requestedSnd);
      var _ := port.Send(address, LocoSnd(slotNumber.value, requestedSnd));
    }

    method InitializeFromSlot(d: SlotRead)
      modifies this
      ensures Abs() == B.InitializeFromSlot(old(Abs()), d)
    {
      slotNumber := Some(d.slot);
      lastKnownStat1 := Some(d.stat);
      lastSentSpeed := Some(d.spd);
      lastSentDirf := Some(d.dirf);
      lastSentSnd := Some(d.snd);
    }

    method SendFunction(number: int, isOn: bool, ghost row: Row)
      requires B.Ready(Abs()) && row.address == address
      modifies this`lastSentDirf, this`lastSentSnd, port
      ensures var v := B.SendFunction(row, old(Abs()), F.FunctionState(number, isOn), |old(port.log)|, port.env);
              v.slot == Some(Abs()) && port.log == old(port.log) + v.events && v.row == row && v.found
    {
      hide With;
      MasksAreSingle(number);
      if IsDirfFunction(number) {
        SendDirf(DirfMask(number), isOn);
      } else if IsSndFunction(number) {
        SendSnd(SndMask(number), isOn);
      }
    }
  }

  lemma MasksAreSingle(n: int)
    ensures SingleBit(DIR)
    ensures IsDirfFunction(n) ==> SingleBit(DirfMask(n))
    ensures IsSndFunction(n) ==> SingleBit(SndMask(n))
  {
  }

  class LoconetSend {
    const table: LocoTable
    const port: LoconetPort
    var slotControl: map<Address, SlotControl>

    ghost predicate Valid()
      reads this, table, table.growingTable, port, slotControl.Values,
            set r | r in table.growingTable :: r.requestedSpeed,
            set r | r in table.growingTable :: r.functions
    {
      table.Valid() && Linked() && B.WellFormed(Abs())
    }

    ghost predicate Linked()
      reads this, slotControl.Values
    {
      forall a :: a in slotControl ==> slotControl[a].address == a && slotControl[a].port == port
    }

    /** The value this object, the table and the log stand for. */
    ghost function Abs(): B.World
      reads this, table, table.growingTable, port, slotControl.Values,
            set r | r in table.growingTable :: r.requestedSpeed,
            set r | r in table.growingTable :: r.functions
    {
      B.World(table.Abs(), Slots(), port.log)
    }

    ghost function Slots(): map<Address, B.Slot>
      reads this, slotControl.Values
    {
      map a | a in slotControl :: slotControl[a].Abs()
    }

    constructor (table: LocoTable, port: LoconetPort)
      requires table.Valid() && port.log == []
      ensures Valid() && this.table == table && this.port == port
      ensures Abs() == B.World(table.Abs(), map[], [])
    {
      this.table, this.port := table, port;
      slotControl := map[];
    }

    method Operate(row: LocoRow, slot: SlotControl) returns (found: bool)
      requires row.Visible() && B.Ready(slot.Abs()) && slot.address == row.address
      modifies slot, slot.port, row.functions
      ensures row.Visible()
      ensures var v := B.Operate(old(row.Abs()), old(slot.Abs()), |old(slot.port.log)|, slot.port.env);
              && row.Abs() == v.row && v.slot == Some(slot.Abs())
              && slot.port.log == old(slot.port.log) + v.events && found == v.found
    {
      hide With, DirectionOf, DirfMask, SndMask, SpeedByte, SpeedOfByte, B.SendFunction;
      MasksAreSingle(0);
      var stop := slot.IsEmergencyStopRequested(row.emergencyStopCounter);
      if stop {
        slot.SendSpeed(1);
        return true;
      }
      var requestedSpeed := row.requestedSpeed.LocoNet();
      assert requestedSpeed == SpeedByte(row.requestedSpeed.speed) by {
        SpeedByteSurvives(requestedSpeed);
      }
      if slot.lastSentSpeed.Some? && slot.lastSentSpeed.value != requestedSpeed {
        slot.SendSpeed(requestedSpeed);
        return true;
      }
      var lastSentDirection := DirectionOf(slot.lastSentDirf.value);
      var requestedDirection := row.requestedDirection;
      if lastSentDirection != requestedDirection {
        slot.SendDirf(DIR, requestedDirection != Forward);
        return true;
      }
      var more, state := row.NextRequestedFunction();
      if more {
        slot.SendFunction(state.number, state.isOn, row.Abs());
        return true;
      }
      return false;
    }

    method Deactivate(slot: SlotControl) returns (next: B.Phase)
      requires B.Ready(slot.Abs())
      modifies slot.port
      ensures next == B.Inactive
      ensures slot.port.log == old(slot.port.log)
        + [B.Send(slot.address, SlotStat1(slot.slotNumber.value, slot.lastKnownStat1.value),
                  |old(slot.port.log)|, slot.port.env)]
    {
      var _ := slot.port.Send(slot.address, SlotStat1(slot.slotNumber.value, slot.lastKnownStat1.value));
      next := B.Inactive;
    }

    /** The handshake that occupies a slot: look up, null move, write our id. */
    method Activating(a: Address, slot: SlotControl) returns (next: B.Phase, ghost data: Option<SlotRead>)
      requires a.Valid()
      modifies slot, slot.port
      ensures var t := B.Activating(a, old(slot.Abs()), |old(slot.port.log)|, slot.port.env);
              && slot.port.log == old(slot.port.log) + t.events
              && slot.Abs() == t.slot && next == t.phase && data == t.data
    {
      AddressBytesIdentify(a, a);
      var lookup := slot.port.Send(a, LocoAdr(a.Low(), a.High()));
      if !lookup.SlotAnswer? { return B.Failed, None; }
      var d := lookup.data;
      slot.InitializeFromSlot(d);
      if InUse(d) {
        if IsOurs(d) { return B.Active, Some(d); }
        return B.Occupied, None;
      }
      var move := slot.port.Send(a, MoveSlots(d.slot, d.slot));
      if !move.SlotAnswer? { return B.Failed, None; }
      var d2 := move.data;
      if IsOurs(d2) { return B.Active, Some(d2); }
      var write := slot.port.Send(a, WrSlData(WithOurId(d2)));
      if write != Acknowledged { return B.Failed, None; }
      return B.Active, Some(d2);
    }

    /** Occupies the slot and reports the outcome; an exception while reporting leaves the state as it was. */
    method Activate(row: LocoRow, slot: SlotControl) returns (crashed: bool)
      requires row.Visible() && slot.address == row.address
      modifies slot, slot.port
      ensures var v := B.Activate(old(row.Abs()), old(slot.Abs()), |old(slot.port.log)|, slot.port.env);
              && v.row == old(row.Abs()) && v.slot == Some(slot.Abs()) && v.found && crashed == v.crashed
              && slot.port.log == old(slot.port.log) + v.events
    {
      var next, _ := Activating(row.address, slot);
      crashed := slot.port.Report(row.address);
      if !crashed { slot.slotState := next; }
    }

    /** The state machine of one address. */
    method Drive(row: LocoRow, slot: SlotControl) returns (found: bool, crashed: bool)
      requires row.Visible() && slot.address == row.address && B.ValidSlot(slot.Abs())
      modifies slot, slot.port, row.functions
      ensures row.Visible()
      ensures var v := B.Visit(old(row.Abs()), Some(old(slot.Abs())), |old(slot.port.log)|, slot.port.env);
              && row.Abs() == v.row && v.slot == Some(slot.Abs())
              && slot.port.log == old(slot.port.log) + v.events && found == v.found && crashed == v.crashed
    {
      B.VisitIsValid(row.Abs(), Some(slot.Abs()), |slot.port.log|, slot.port.env);
      hide B.Operate, B.Activate, B.Ready;
      found, crashed := false, false;
      var active := row.IsLocoActivated();
      match (active, slot.slotState)
      case (false, Untouched) =>
      case (false, Inactive) =>
      case (false, Active) =>
        var next := Deactivate(slot);
        slot.slotState := next;
        found := true;
      case (false, _) =>
        slot.slotState := B.Inactive;
        found := true;
      case (true, Untouched) =>
        crashed := Activate(row, slot);
        found := true;
      case (true, Inactive) =>
        crashed := Activate(row, slot);
        found := true;
      case (true, Active) =>
        found := Operate(row, slot);
      case (true, _) =>
    }

    /** The slot memory of this address, created on first use. */
    method SlotFor(a: Address) returns (slot: SlotControl)
      requires Linked() && table.Valid()
      modifies this`slotControl
      ensures Linked() && table.Valid() && a in slotControl && slotControl[a] == slot
      ensures slotControl.Values <= old(slotControl.Values) + {slot}
      ensures a in old(slotControl) ==> slot == old(slotControl)[a] && slotControl == old(slotControl)
      ensures a !in old(slotControl) ==> fresh(slot)
      ensures slot.Abs() == B.SlotOf(old(Abs()), a).GetOr(B.FRESH)
      ensures Abs() == old(Abs()).(slots := old(Abs()).slots[a := slot.Abs()])
    {
      if a in slotControl {
        slot := slotControl[a];
      } else {
        slot := new SlotControl(a, port);
        slotControl := slotControl[a := slot];
      }
      assert Slots() == old(Slots())[a := slot.Abs()];
    }

    twostate lemma OneSlotMoved(a: Address)
      requires a in slotControl && slotControl == old(slotControl)
      requires forall b :: b in slotControl && b != a ==> unchanged(slotControl[b])
      ensures Slots() == old(Slots())[a := slotControl[a].Abs()]
    {
    }

    /** Driving one address changes nothing else in the table or among the slots. */
    method DriveAt(index: nat, slot: SlotControl) returns (found: bool, crashed: bool)
      requires table.Valid() && Linked() && index < |table.growingTable| && B.ValidSlot(slot.Abs())
      requires table.growingTable[index].address in slotControl
      requires slotControl[table.growingTable[index].address] == slot
      modifies slot, port, table.growingTable[index].functions
      ensures table.Valid() && Linked()
      ensures var v := B.Visit(old(Abs()).rows[index], Some(old(slot.Abs())), |old(port.log)|, port.env);
              Abs() == B.After(old(Abs()), index, v) && found == v.found && crashed == v.crashed
    {
      var row := table.growingTable[index];
      B.VisitIsValid(row.Abs(), Some(slot.Abs()), |port.log|, port.env);
      found, crashed := Drive(row, slot);
      hide B.Visit, B.ValidSlot;
      table.OneRowMoved(index);
      OneSlotMoved(row.address);
    }

    /** Looks up or sets up the slot memory and drives it. */
    method Control(index: nat) returns (found: bool, crashed: bool)
      requires table.Valid() && Linked() && B.WellFormed(Abs()) && index < |table.growingTable|
      requires var row := table.growingTable[index]; row.isActive || row.address in slotControl
      modifies this`slotControl, slotControl.Values, port, table.growingTable[index].functions
      ensures table.Valid() && Linked() && fresh(slotControl.Values - old(slotControl.Values))
      ensures Abs() == B.AfterVisit(old(Abs()), index, port.env)
      ensures var v := B.VisitOf(old(Abs()), index, port.env); found == v.found && crashed == v.crashed
    {
      hide B.Visit, B.After, B.AfterVisit, B.VisitOf, B.SlotOf, B.WellFormed, B.ValidSlot;
      B.FreshOnFirstUse(Abs(), index, port.env);
      var slot := SlotFor(table.growingTable[index].address);
      found, crashed := DriveAt(index, slot);
    }

    /** One iteration of the scan loop. */
    method Visit(index: nat) returns (found: bool, crashed: bool)
      requires Valid() && index < |table.growingTable|
      modifies this`slotControl, slotControl.Values, port, table.growingTable[index].functions
      ensures Valid() && fresh(slotControl.Values - old(slotControl.Values))
      ensures Abs() == B.AfterVisit(old(Abs()), index, port.env)
      ensures var v := B.VisitOf(old(Abs()), index, port.env); found == v.found && crashed == v.crashed
    {
      hide B.Visit, B.AfterVisit, B.VisitOf, B.WellFormed, B.ValidSlot;
      B.TakeKeepsWellFormed(Abs(), B.Scan(index), port.env);
      var row := table.growingTable[index];
      var active := row.IsLocoActivated();
      var known := row.address in slotControl;
      if active || known {
        found, crashed := Control(index);
      } else {
        B.NothingToDo(Abs(), index, port.env);
        found, crashed := false, false;
      }
    }

    /**
     One pass over all rows. Before each row the thread polls for cancellation, and
     `polls` is how many polls still say "go on".
     */
    method ScanPass(polls: nat) returns (left: nat, found: bool, stopped: bool, crashed: bool)
      requires Valid()
      modifies this`slotControl, slotControl.Values, port, set r | r in table.growingTable :: r.functions
      ensures Valid() && fresh(slotControl.Values - old(slotControl.Values))
      ensures B.Scanned(Abs(), left, found, stopped, crashed) == B.ScanFrom(old(Abs()), 0, polls, port.env)
    {
      hide B.AfterVisit, B.VisitOf, B.WellFormed, B.ScanFrom, LocoTable.Valid, LocoTable.Abs, Linked, Slots;
      ghost var whole := B.ScanFrom(Abs(), 0, polls, port.env);
      left, found := polls, false;
      var index := 0;
      while index < |table.growingTable|
        invariant index <= |table.growingTable|
        invariant Valid() && fresh(slotControl.Values - old(slotControl.Values))
        invariant var r := B.ScanFrom(Abs(), index, left, port.env);
                  r.(found := found || r.found) == whole
      {
        B.ScanUnfolds(Abs(), index, left, port.env);
        if left == 0 {
          return left, found, true, false;
        }
        left := left - 1;
        var some, broke := Visit(index);
        found := found || some;
        if broke {
          return left, found, false, true;
        }
        index := index + 1;
      }
      B.ScanUnfolds(Abs(), index, left, port.env);
      return left, found, false, false;
    }

    /** Passes until a poll asks to stop; an exception ends it early. */
    method NormalOperation(polls: nat) returns (crashed: bool)
      requires Valid()
      modifies this`slotControl, slotControl.Values, port, set r | r in table.growingTable :: r.functions
      ensures Valid()
      ensures B.Ended(Abs(), crashed) == B.Operation(old(Abs()), polls, port.env)
    {
      hide B.WellFormed, B.ScanFrom;
      var left := polls;
      while left > 0
        invariant Valid() && fresh(slotControl.Values - old(slotControl.Values))
        invariant B.Operation(Abs(), left, port.env) == B.Operation(old(Abs()), polls, port.env)
      {
        var found, stopped;
        left, found, stopped, crashed := ScanPass(left - 1);
        if stopped || crashed {
          return crashed;
        }
      }
      return false;
    }
  }
}
