/** Loco addresses, the frames a send thread emits, and the answers it can get. */
module Frames {
  import opened Bits
  import opened Functions

  const LARGEST_SHORT := 127
  const LARGEST_LONG := 10239

  /** A DCC address. The numbers are range-checked when an address is built. */
  datatype Address = Short(number: int) | Long(number: int) {
    predicate Valid() {
      match this
      case Short(n) => 1 <= n <= LARGEST_SHORT
      case Long(n) => LARGEST_SHORT < n <= LARGEST_LONG
    }

    function Low(): bv8
      requires Valid()
    {
      match this
      case Short(n) => n as bv8
      case Long(n) => (n % 0x80) as bv8
    }

    function High(): bv8
      requires Valid()
    {
      match this
      case Short(n) => 0
      case Long(n) => (n / 0x80) as bv8
    }
  }

  /** The two address bytes fit data bytes and identify the address. */
  lemma AddressBytesIdentify(a: Address, b: Address)
    requires a.Valid() && b.Valid()
    ensures a.Low() <= 127 && a.High() <= 127
    ensures a.Low() == b.Low() && a.High() == b.High() ==> a == b
  {
    AddressBytes(a);
    AddressBytes(b);
  }

  /** Short addresses go to 127, long ones from 128 to 10239. */
  lemma AddressRange(n: int)
    ensures Short(n).Valid() <==> 1 <= n <= 127
    ensures Long(n).Valid() <==> 128 <= n <= 10239
  {
  }

  /** The low seven bits of an address, and the rest; a short one has no rest. */
  lemma AddressBytes(a: Address)
    requires a.Valid()
    ensures a.Low() as int == a.number % 128
    ensures a.High() as int == a.number / 128
    ensures a.Low() <= 127 && a.High() <= 127
    ensures a.High() == 0 <==> a.Short?
  {
    if a.Short? {
      ByteOfSmall(a.number);
    } else {
      ByteOfSmall(a.number % 0x80);
      ByteOfSmall(a.number / 0x80);
    }
  }

  lemma ByteOfSmall(n: int)
    requires 0 <= n <= 127
    ensures (n as bv8) as int == n && n as bv8 <= 127
  {
  }

  /** Slot data as a command station reports it (OPC_SL_RD_DATA): every field is a data byte. */
  datatype SlotRead = SlotRead(slot: Seven, stat: Seven, adr: Seven, spd: Seven, dirf: Seven, trk: Seven,
                               ss2: Seven, adr2: Seven, snd: Seven, id1: Seven, id2: Seven)

  /** Both the BUSY and the ACTIVE bit of the slot status are set. */
  predicate InUse(d: SlotRead) {
    Has(d.stat, 0x20) && Has(d.stat, 0x10)
  }

  /** The two status bits read 11, neither IDLE nor COMMON nor FREE. */
  lemma InUseIsBothBits(d: SlotRead)
    ensures InUse(d) <==> d.stat & 0x30 == 0x30
  {
    assert d.stat & 0x30 == (d.stat & 0x20) | (d.stat & 0x10);
    assert d.stat & 0x20 == 0 || d.stat & 0x20 == 0x20;
    assert d.stat & 0x10 == 0 || d.stat & 0x10 == 0x10;
  }

  /** The device id this program writes into the slots it takes. */
  const ID1: Seven := 42
  const ID2: Seven := 1

  predicate IsOurs(d: SlotRead) {
    d.id1 == ID1 && d.id2 == ID2
  }

  function WithOurId(d: SlotRead): SlotRead {
    d.(id1 := ID1, id2 := ID2)
  }

  /** What a row learns from the slot it was given. */
  datatype Reply = Reply(speed: int, direction: Direction, functions: seq<FunctionState>)

  function ReplyOf(d: SlotRead): Reply {
    Reply(SpeedOfByte(d.spd), DirectionOf(d.dirf),
          seq(9, n requires 0 <= n < 9 => FunctionState(n, FunctionBit(d.dirf, d.snd, n))))
  }

  /** The reply's speed and direction, told from the bytes of the slot. */
  lemma ReplyMoves(d: SlotRead)
    ensures ReplyOf(d).direction == Reverse <==> d.dirf & 0x20 != 0
    ensures ReplyOf(d).speed == if d.spd == 0 then 0 else if d.spd == 1 then -1 else d.spd as int - 1
  {
    DirectionIsBit(d.dirf, false);
  }

  /** The reply's function list, bit by bit. */
  lemma ReplyFunctions(d: SlotRead)
    ensures ReplyOf(d).functions ==
      [FunctionState(0, Has(d.dirf, 0x10)), FunctionState(1, Has(d.dirf, 0x01)), FunctionState(2, Has(d.dirf, 0x02)),
       FunctionState(3, Has(d.dirf, 0x04)), FunctionState(4, Has(d.dirf, 0x08)), FunctionState(5, Has(d.snd, 0x01)),
       FunctionState(6, Has(d.snd, 0x02)), FunctionState(7, Has(d.snd, 0x04)), FunctionState(8, Has(d.snd, 0x08))]
  {
  }

  datatype Frame =
    | LocoAdr(adr: bv8, adrHigh: bv8)
    | MoveSlots(src: bv8, dest: bv8)
    | WrSlData(data: SlotRead)
    | LocoSpd(slot: bv8, spd: bv8)
    | LocoDirf(slot: bv8, dirf: bv8)
    | LocoSnd(slot: bv8, snd: bv8)
    | SlotStat1(slot: bv8, stat1: bv8)

  /** Every value fits a data byte, so building the message raises no range error. */
  predicate Sendable(f: Frame) {
    match f
    case LocoAdr(a, h) => a <= 127 && h <= 127
    case MoveSlots(s, d) => s <= 127 && d <= 127
    case WrSlData(_) => true
    case LocoSpd(s, v) => s <= 127 && v <= 127
    case LocoDirf(s, v) => s <= 127 && v <= 127
    case LocoSnd(s, v) => s <= 127 && v <= 127
    case SlotStat1(s, v) => s <= 127 && v <= 127
  }

  /** How a send ends: nothing useful, a positive acknowledgement, or slot data. */
  datatype Answer = Nothing | Acknowledged | SlotAnswer(data: SlotRead)

  datatype Event =
    | Sent(address: Address, frame: Frame, answer: Answer)
    | Reported(address: Address, crashed: bool)
}
