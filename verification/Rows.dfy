/** The requested side: one row per loco address, written by throttles and read by send threads. */
module Rows {
  import opened Bits
  import opened Frames
  import F = Functions

  // ----- 32-bit counter -----

  type Int32 = i: int | -0x8000_0000 <= i < 0x8000_0000

  function Increment(c: Int32): Int32 {
    if c == 0x7FFF_FFFF then -0x8000_0000 else c + 1
  }

  /** The counter after n increments from zero. */
  function Counter(n: nat): Int32 {
    (n + 0x8000_0000) % 0x1_0000_0000 - 0x8000_0000
  }

  lemma CounterSteps(n: nat)
    ensures Counter(0) == 0
    ensures Counter(n + 1) == Increment(Counter(n))
  {
  }

  /** Two counts look alike exactly when they differ by a multiple of 2^32. */
  lemma CountersAgree(m: nat, n: nat)
    requires m <= n
    ensures Counter(m) == Counter(n) <==> (n - m) % 0x1_0000_0000 == 0
  {
  }

  // ----- Row -----

  datatype Row = Row(address: Address, active: bool, stops: Int32, speed: int, direction: Direction,
                     functions: F.Table)

  predicate ValidRow(r: Row) {
    r.address.Valid() && IsSpeed(r.speed)
  }

  function NewRow(a: Address): Row {
    Row(a, false, 0, 0, Forward, F.EMPTY)
  }

  datatype Command =
    | Acquire
    | Release
    | EmergencyStop
    | SetSpeed(speed: int)
    | SetDirection(direction: Direction)
    | Function(event: F.Event)
    | Adopt(reply: Reply)
    | TakenElsewhere

  predicate ValidCommand(c: Command) {
    match c
    case Function(e) => e.Key? || e.Configure? || e.Force?
    case Adopt(r) => IsSpeed(r.speed)
    case _ => true
  }

  /**
   One throttle command, or another connection taking the oldest function change from the queue they
   share. A speed outside the scale is refused and changes nothing.
   */
  function Obey(r: Row, c: Command): Row {
    match c
    case Acquire => r.(active := true)
    case Release => r.(active := false, stops := Increment(r.stops))
    case EmergencyStop => r.(stops := Increment(r.stops), speed := 0)
    case SetSpeed(v) => if IsSpeed(v) then r.(speed := v) else r
    case SetDirection(d) => r.(direction := d)
    case Function(e) => r.(functions := F.Apply(r.functions, e))
    case Adopt(reply) =>
      r.(speed := reply.speed, direction := reply.direction,
         functions := F.Apply(r.functions, F.Initialize(reply.functions)))
    case TakenElsewhere => r.(functions := F.Apply(r.functions, F.Dequeue))
  }

  lemma ObeyKeepsValid(r: Row, c: Command)
    requires ValidRow(r) && ValidCommand(c)
    ensures ValidRow(Obey(r, c)) && Obey(r, c).address == r.address
  {
  }

  predicate IsStopRequest(c: Command) {
    c.EmergencyStop? || c.Release?
  }

  // ----- The objects -----

  class Speed {
    var speed: int

    ghost predicate Valid() reads this { IsSpeed(speed) }

    constructor ()
      ensures Valid() && speed == 0
    {
      speed := 0;
    }

    method SetStop()
      modifies this
      ensures Valid() && speed == 0
    {
      speed := 0;
    }

    /** Refuses values outside -1..126. */
    method SetWiThrottle(value: int) returns (ok: bool)
      requires Valid()
      modifies this
      ensures Valid() && ok == IsSpeed(value)
      ensures speed == if ok then value else old(speed)
    {
      ok := -1 <= value && value <= 126;
      if ok { speed := value; }
    }

    /** Refuses bytes above 127; keeps the speed whose slot byte is `value`. */
    method SetLocoNet(value: bv8) returns (ok: bool)
      requires Valid()
      modifies this
      ensures Valid() && ok == (value <= 127)
      ensures if ok then SpeedByte(speed) == value else speed == old(speed)
      ensures ok ==> speed == SpeedOfByte(value)
    {
      ok := value <= 127;
      if ok {
        SpeedByteSurvives(value);
        speed := if value == 0 then 0 else if value == 1 then -1 else value as int - 1;
      }
    }

    function LocoNet(): (b: bv8)
      requires Valid()
      reads this
      ensures b <= 127 && SpeedOfByte(b) == speed
    {
      SpeedSurvives(speed);
      SpeedByte(speed)
    }
  }

  /** The reply object shares its Speed object with the row that adopts it. */
  datatype OccupySlotReply = OccupySlotReply(speed: Speed, direction: Direction, functions: seq<F.FunctionState>)

  ghost predicate Holds(o: OccupySlotReply, r: Reply)
    reads o.speed
  {
    o.speed.speed == r.speed && o.direction == r.direction && o.functions == r.functions
  }

  method MakeReply(d: SlotRead) returns (o: OccupySlotReply)
    ensures fresh(o.speed) && o.speed.Valid()
    ensures Holds(o, ReplyOf(d))
  {
    var speed := new Speed();
    var ok := speed.SetLocoNet(d.spd);
    ReplyFunctions(d);
    o := OccupySlotReply(speed, if Has(d.dirf, DIR) then Reverse else Forward,
      [F.FunctionState(0, Has(d.dirf, 0x10)),
       F.FunctionState(1, Has(d.dirf, 0x01)),
       F.FunctionState(2, Has(d.dirf, 0x02)),
       F.FunctionState(3, Has(d.dirf, 0x04)),
       F.FunctionState(4, Has(d.dirf, 0x08)),
       F.FunctionState(5, Has(d.snd, 0x01)),
       F.FunctionState(6, Has(d.snd, 0x02)),
       F.FunctionState(7, Has(d.snd, 0x04)),
       F.FunctionState(8, Has(d.snd, 0x08))]);
  }

  class LocoRow {
    const address: Address
    const functions: F.FunctionProcessing
    var isActive: bool
    var emergencyStopCounter: Int32
    var requestedSpeed: Speed
    var requestedDirection: Direction

    ghost predicate Valid()
      reads this, requestedSpeed, functions, functions.known.Values
    {
      Visible() && functions.Valid()
    }

    /** The part of Valid that the send threads rely on. */
    ghost predicate Visible()
      reads this, requestedSpeed, functions
    {
      address.Valid() && requestedSpeed.Valid() && functions.QueueInStep()
    }

    ghost function Abs(): Row
      reads this, requestedSpeed, functions
    {
      Row(address, isActive, emergencyStopCounter, requestedSpeed.speed, requestedDirection, functions.table)
    }

    constructor (address: Address)
      requires address.Valid()
      ensures Valid() && Abs() == NewRow(address)
      ensures fresh(functions) && fresh(requestedSpeed) && functions.known == map[]
    {
      this.address := address;
      functions := new F.FunctionProcessing();
      requestedSpeed := new Speed();
      requestedDirection := Forward;
      emergencyStopCounter, isActive := 0, false;
    }

    method Activate()
      requires Visible()
      modifies this`isActive
      ensures Visible() && (old(Valid()) ==> Valid()) && Abs() == Obey(old(Abs()), Acquire)
    {
      isActive := true;
    }

    method Deactivate()
      requires Visible()
      modifies this`isActive, this`emergencyStopCounter
      ensures Visible() && (old(Valid()) ==> Valid()) && Abs() == Obey(old(Abs()), Release)
    {
      emergencyStopCounter := Increment(emergencyStopCounter);
      isActive := false;
    }

    method SetEmergencyStop()
      requires Valid()
      modifies this`emergencyStopCounter, requestedSpeed
      ensures Valid() && Abs() == Obey(old(Abs()), EmergencyStop)
    {
      emergencyStopCounter := Increment(emergencyStopCounter);
      requestedSpeed.SetStop();
    }

    method SetSpeed(v: int) returns (ok: bool)
      requires Valid()
      modifies requestedSpeed
      ensures Valid() && ok == IsSpeed(v)
      ensures Abs() == Obey(old(Abs()), Command.SetSpeed(v))
    {
      ok := requestedSpeed.SetWiThrottle(v);
    }

    method SetDirection(d: Direction)
      requires Valid()
      modifies this`requestedDirection
      ensures Valid() && Abs() == Obey(old(Abs()), Command.SetDirection(d))
    {
      requestedDirection := d;
    }

    method SetFunctionKey(number: int, newButtonState: bool)
      requires Valid()
      modifies functions, functions.known.Values
      ensures Valid() && fresh(functions.known.Values - old(functions.known.Values))
      ensures Abs() == Obey(old(Abs()), Function(F.Key(number, newButtonState)))
    {
      functions.SetFunctionKey(number, newButtonState);
    }

    method ForceFunction(number: int, newFunctionState: bool)
      requires Valid()
      modifies functions, functions.known.Values
      ensures Valid() && fresh(functions.known.Values - old(functions.known.Values))
      ensures Abs() == Obey(old(Abs()), Function(F.Force(number, newFunctionState)))
    {
      functions.ForceFunction(number, newFunctionState);
    }

    method SetMomentaryFunction(number: int, newMomentaryConfig: bool)
      requires Valid()
      modifies functions, functions.known.Values
      ensures Valid() && fresh(functions.known.Values - old(functions.known.Values))
      ensures Abs() == Obey(old(Abs()), Function(F.Configure(number, newMomentaryConfig)))
    {
      functions.SetMomentaryFunction(number, newMomentaryConfig);
    }

    /** Takes over speed, direction and functions of the slot; the Speed object is shared from now on. */
    method InitializeFromSlot(value: OccupySlotReply, ghost reply: Reply)
      requires Valid() && value.speed.Valid() && Holds(value, reply)
      modifies this`requestedSpeed, this`requestedDirection, functions, functions.known.Values
      ensures Valid() && fresh(functions.known.Values - old(functions.known.Values))
      ensures requestedSpeed == value.speed
      ensures Abs() == Obey(old(Abs()), Adopt(reply))
    {
      requestedDirection := value.direction;
      requestedSpeed := value.speed;
      functions.InitializeFromCommandStation(value.functions);
    }

    /** All connections are enabled, so only the activity flag decides. */
    predicate IsLocoActivated()
      reads this
    {
      isActive
    }

    method NextRequestedFunction() returns (found: bool, state: F.FunctionState)
      requires Visible()
      modifies functions`queue, functions`table
      ensures Visible() && (old(Valid()) ==> Valid())
      ensures Abs() == old(Abs()).(functions := F.Apply(old(Abs()).functions, F.Dequeue))
      ensures found == (old(functions.queue) != [])
      ensures found ==> state == old(functions.queue)[0]
    {
      found, state := functions.TryDequeue();
    }
  }

  /** Rows in order of creation, found by address as well. Rows are never removed. */
  class LocoTable {
    var rowByAddress: map<Address, LocoRow>
    var growingTable: seq<LocoRow>

    ghost predicate Valid()
      reads this, growingTable, set r | r in growingTable :: r.requestedSpeed,
            set r | r in growingTable :: r.functions
    {
      && (forall i :: 0 <= i < |growingTable| ==>
            && growingTable[i].Visible()
            && growingTable[i].address in rowByAddress
            && rowByAddress[growingTable[i].address] == growingTable[i])
      && (forall a :: a in rowByAddress ==> rowByAddress[a] in growingTable && rowByAddress[a].address == a)
      && (forall i, j :: 0 <= i < j < |growingTable| ==>
            growingTable[i] != growingTable[j] && growingTable[i].functions != growingTable[j].functions)
    }

    ghost function Abs(): (rows: seq<Row>)
      reads this, growingTable, set r | r in growingTable :: r.requestedSpeed,
            set r | r in growingTable :: r.functions
      ensures |rows| == |growingTable|
      ensures forall i :: 0 <= i < |rows| ==> rows[i] == growingTable[i].Abs()
    {
      seq(|growingTable|, i requires 0 <= i < |growingTable|
            reads this, growingTable, set r | r in growingTable :: r.requestedSpeed,
            set r | r in growingTable :: r.functions
          => growingTable[i].Abs())
    }

    /** When one row's function queue moved, only that row's value did. */
    twostate lemma OneRowMoved(index: nat)
      requires old(Valid()) && index < |growingTable| && unchanged(this)
      requires forall r :: r in growingTable ==> unchanged(r) && unchanged(r.requestedSpeed)
      requires forall i :: 0 <= i < |growingTable| && i != index ==> unchanged(growingTable[i].functions)
      requires growingTable[index].Visible()
      ensures Valid()
      ensures Abs() == old(Abs())[index := growingTable[index].Abs()]
    {
    }

    lemma RowIsKnown(row: LocoRow)
      requires Valid() && row in growingTable
      ensures row.Visible() && row.address in rowByAddress && rowByAddress[row.address] == row
    {
    }

    lemma AddressIsKnown(a: Address)
      requires Valid() && a in rowByAddress
      ensures rowByAddress[a] in growingTable && rowByAddress[a].address == a && rowByAddress[a].Visible()
    {
    }

    /** The map decides: no two rows have the same address. */
    lemma RowsAreUnique()
      requires Valid()
      ensures forall i :: 0 <= i < |growingTable| ==> ValidRow(Abs()[i])
      ensures forall i, j :: 0 <= i < j < |growingTable| ==> Abs()[i].address != Abs()[j].address
    {
    }

    constructor ()
      ensures Valid() && growingTable == []
    {
      rowByAddress, growingTable := map[], [];
    }

    /** Finds the row of this address; a new address gets a new row at the end of the table. */
    method GetRowForAddress(address: Address) returns (row: LocoRow)
      requires Valid() && address.Valid()
      modifies this
      ensures Valid() && row in growingTable && row.address == address
      ensures rowByAddress == old(rowByAddress)[address := row]
      ensures if address in old(rowByAddress)
              then growingTable == old(growingTable) && row == old(rowByAddress)[address]
              else growingTable == old(growingTable) + [row] && fresh(row) && row.Abs() == NewRow(address)
    {
      if address in rowByAddress {
        row := rowByAddress[address];
      } else {
        row := new LocoRow(address);
        rowByAddress := rowByAddress[address := row];
        growingTable := growingTable + [row];
      }
    }
  }
}
