/**
 The locally known part of a command station's slot table, kept up to date from received messages
 and searchable by slot number and by address.
 */
module Mirror {
  import opened Wrappers
  import opened Bits
  import opened Frames

  const SLOTS := 127

  datatype Adr = Adr(low: bv8, high: bv8)

  datatype Entry = Entry(status: bv8, status2: bv8, address: Adr, dirf: bv8, speed: bv8, sound: bv8, id1: bv8, id2: bv8)

  function EntryOf(d: SlotRead): Entry {
    Entry(d.stat, d.ss2, Adr(d.adr, d.adr2), d.dirf, d.spd, d.snd, d.id1, d.id2)
  }

  datatype Origin = FromNet | Replied | SentByUs

  datatype Message =
    | SlotMessage(data: SlotRead)
    | Dirf(slot: Seven, value: bv8)
    | Snd(slot: Seven, value: bv8)
    | Spd(slot: Seven, value: bv8)
    | Stat1(slot: Seven, value: bv8)
    | Unrelated

  datatype Heard = Heard(origin: Origin, message: Message)

  /** The slot a message is about. */
  function SlotOf(m: Message): Option<nat> {
    match m
    case SlotMessage(d) => Some(d.slot as nat)
    case Dirf(n, _) => Some(n as nat)
    case Snd(n, _) => Some(n as nat)
    case Spd(n, _) => Some(n as nat)
    case Stat1(n, _) => Some(n as nat)
    case Unrelated => None
  }

  /** What a message makes of the entry of its slot: data starts or replaces it, the rest changes one field. */
  function Overlay(entry: Option<Entry>, m: Message): Option<Entry> {
    if m.SlotMessage? then Some(EntryOf(m.data))
    else if entry.None? then None
    else match m
      case Dirf(_, v) => Some(entry.value.(dirf := v))
      case Snd(_, v) => Some(entry.value.(sound := v))
      case Spd(_, v) => Some(entry.value.(speed := v))
      case Stat1(_, v) => Some(entry.value.(status := v))
      case _ => entry
  }

  type Table = t: seq<Option<Entry>> | |t| == SLOTS witness seq(SLOTS, _ => None)

  const EMPTY: Table := seq(SLOTS, _ => None)

  /** The message is dropped: our own, about no slot, or about slot 127, which the table lacks. */
  predicate Ignored(h: Heard) {
    h.origin == SentByUs || SlotOf(h.message).None? || SlotOf(h.message).value >= SLOTS
  }

  function Hear(t: Table, h: Heard): Table {
    if Ignored(h) then t
    else
      var n := SlotOf(h.message).value;
      t[n := Overlay(t[n], h.message)]
  }

  function HearAll(t: Table, hs: seq<Heard>): Table {
    if hs == [] then t else Hear(HearAll(t, hs[..|hs| - 1]), hs[|hs| - 1])
  }

  /** The messages that count for slot n. */
  function About(hs: seq<Heard>, n: nat): seq<Message> {
    if hs == [] then []
    else
      var h := hs[|hs| - 1];
      About(hs[..|hs| - 1], n) + if !Ignored(h) && SlotOf(h.message) == Some(n) then [h.message] else []
  }

  /** The last slot data among the messages, overlaid by the messages after it. */
  function Folded(ms: seq<Message>): Option<Entry> {
    if ms == [] then None else Overlay(Folded(ms[..|ms| - 1]), ms[|ms| - 1])
  }

  /** After any run each entry depends only on the messages about its own slot. */
  lemma {:induction false} TableIsAFold(hs: seq<Heard>, n: nat)
    requires n < SLOTS
    ensures HearAll(EMPTY, hs)[n] == Folded(About(hs, n))
  {
    if hs != [] {
      var before, h := hs[..|hs| - 1], hs[|hs| - 1];
      TableIsAFold(before, n);
      if !Ignored(h) && SlotOf(h.message) == Some(n) {
        var ms := About(before, n);
        assert (ms + [h.message])[..|ms|] == ms;
      } else {
        assert About(hs, n) == About(before, n);
      }
    }
  }

  /** There is an entry exactly when slot data was heard at all. */
  lemma {:induction false} EntryNeedsSlotData(ms: seq<Message>)
    ensures Folded(ms).Some? <==> exists i :: 0 <= i < |ms| && ms[i].SlotMessage?
  {
    if ms != [] {
      var before := ms[..|ms| - 1];
      EntryNeedsSlotData(before);
      if Folded(before).Some? {
        var i :| 0 <= i < |before| && before[i].SlotMessage?;
        assert ms[i].SlotMessage?;
      }
      if exists i :: 0 <= i < |ms| && ms[i].SlotMessage? {
        var i :| 0 <= i < |ms| && ms[i].SlotMessage?;
        if i < |before| { assert before[i].SlotMessage?; }
      }
    }
  }

  /** The four parts of an entry that messages can change one by one. */
  datatype Part = DirfPart | SndPart | SpdPart | StatPart

  /** Slot data sets every part. */
  predicate Sets(m: Message, p: Part) {
    m.SlotMessage? ||
    match p
    case DirfPart => m.Dirf?
    case SndPart => m.Snd?
    case SpdPart => m.Spd?
    case StatPart => m.Stat1?
  }

  function PartOf(e: Entry, p: Part): bv8 {
    match p
    case DirfPart => e.dirf
    case SndPart => e.sound
    case SpdPart => e.speed
    case StatPart => e.status
  }

  function SetBy(m: Message, p: Part): bv8
    requires Sets(m, p)
  {
    if !m.SlotMessage? then m.value
    else match p
      case DirfPart => m.data.dirf
      case SndPart => m.data.snd
      case SpdPart => m.data.spd
      case StatPart => m.data.stat
  }

  function LastSetting(ms: seq<Message>, p: Part): (r: Option<Message>)
    ensures r.Some? ==> Sets(r.value, p)
  {
    if ms == [] then None
    else if Sets(ms[|ms| - 1], p) then Some(ms[|ms| - 1])
    else LastSetting(ms[..|ms| - 1], p)
  }

  /** Each part of an entry is what the last message that sets it says, slot data or its own kind of message. */
  lemma {:induction false} EachPartIsTheLatest(ms: seq<Message>, p: Part)
    requires Folded(ms).Some?
    ensures LastSetting(ms, p).Some?
    ensures PartOf(Folded(ms).value, p) == SetBy(LastSetting(ms, p).value, p)
  {
    if !Sets(ms[|ms| - 1], p) {
      EachPartIsTheLatest(ms[..|ms| - 1], p);
    }
  }

  function LastData(ms: seq<Message>): Option<SlotRead> {
    if ms == [] then None
    else if ms[|ms| - 1].SlotMessage? then Some(ms[|ms| - 1].data)
    else LastData(ms[..|ms| - 1])
  }

  /** What no single message changes: address, second status and ids. */
  predicate RestFrom(e: Entry, d: SlotRead) {
    && e.address.low == d.adr && e.address.high == d.adr2
    && e.status2 == d.ss2 && e.id1 == d.id1 && e.id2 == d.id2
  }

  lemma OverlayKeepsRest(entry: Option<Entry>, m: Message, d: SlotRead)
    requires Overlay(entry, m).Some?
    requires if m.SlotMessage? then m.data == d else entry.Some? && RestFrom(entry.value, d)
    ensures RestFrom(Overlay(entry, m).value, d)
  {
  }

  /** Address, second status and ids come from slot data only, the latest. */
  lemma {:induction false} RestIsTheLatestData(ms: seq<Message>)
    requires Folded(ms).Some?
    ensures LastData(ms).Some? && RestFrom(Folded(ms).value, LastData(ms).value)
  {
    hide RestFrom, EntryOf;
    var before, m := ms[..|ms| - 1], ms[|ms| - 1];
    if !m.SlotMessage? { RestIsTheLatestData(before); }
    OverlayKeepsRest(Folded(before), m, LastData(ms).value);
  }

  /** Only our own messages, those about no slot, and those about slot 127 are dropped. */
  lemma DroppedMessages(h: Heard)
    ensures var n: int := match h.message {
              case SlotMessage(d) => d.slot as int
              case Unrelated => 127
              case _ => h.message.slot as int };
            Ignored(h) <==> h.origin == SentByUs || n == 127
  {
  }

  // ----- Search by address -----

  /** Slot data for slot n neither moves a known slot to another address nor claims a taken address. */
  predicate Agreeable(t: Table, n: nat, address: Adr)
    requires n < SLOTS
  {
    if t[n].Some? then t[n].value.address == address
    else forall j :: 0 <= j < SLOTS && t[j].Some? ==> t[j].value.address != address
  }

  predicate KeepsAddresses(t: Table, h: Heard) {
    !Ignored(h) && h.message.SlotMessage? ==>
      Agreeable(t, h.message.data.slot as nat, Adr(h.message.data.adr, h.message.data.adr2))
  }

  /** No two entries have the same address. */
  predicate AddressesDiffer(t: Table) {
    forall i, j :: 0 <= i < j < SLOTS && t[i].Some? && t[j].Some? ==> t[i].value.address != t[j].value.address
  }

  lemma HearingKeepsAddresses(t: Table, h: Heard, n: nat)
    requires KeepsAddresses(t, h) && n < SLOTS
    ensures t[n].Some? ==> Hear(t, h)[n].Some? && Hear(t, h)[n].value.address == t[n].value.address
    ensures AddressesDiffer(t) ==> AddressesDiffer(Hear(t, h))
  {
    if !Ignored(h) {
      var k := SlotOf(h.message).value;
      var entry := Overlay(t[k], h.message);
      assert t[k].Some? ==> entry.Some? && entry.value.address == t[k].value.address;
      assert t[k].None? && entry.Some? ==> h.message.SlotMessage? && Agreeable(t, k, entry.value.address);
      hide Overlay, Ignored, KeepsAddresses;
      assert Hear(t, h) == t[k := entry];
    }
  }

  /** Addresses stay distinct, and every slot keeps its own, while each slot data agrees with the table it meets. */
  lemma {:induction false} AddressesStayPut(hs: seq<Heard>, n: nat)
    requires n < SLOTS
    requires forall k :: 0 <= k < |hs| ==> KeepsAddresses(HearAll(EMPTY, hs[..k]), hs[k])
    ensures AddressesDiffer(HearAll(EMPTY, hs))
    ensures forall k :: 0 <= k <= |hs| && HearAll(EMPTY, hs[..k])[n].Some? ==>
              && HearAll(EMPTY, hs)[n].Some?
              && HearAll(EMPTY, hs)[n].value.address == HearAll(EMPTY, hs[..k])[n].value.address
  {
    hide Hear, KeepsAddresses, Ignored;
    if hs == [] {
      assert hs[..0] == [];
    } else {
      var before := hs[..|hs| - 1];
      assert forall k :: 0 <= k <= |before| ==> before[..k] == hs[..k];
      assert hs[..|hs|] == hs;
      AddressesStayPut(before, n);
      HearingKeepsAddresses(HearAll(EMPTY, before), hs[|before|], n);
    }
  }

  lemma HearingSlotData(t: Table, d: SlotRead, n: nat)
    requires n == d.slot as nat
    ensures var h := Heard(FromNet, SlotMessage(d));
            && Hear(t, h) == (if n < SLOTS then t[n := Some(EntryOf(d))] else t)
            && (KeepsAddresses(t, h) <==> n >= SLOTS || Agreeable(t, n, Adr(d.adr, d.adr2)))
  {
  }

  // ----- The objects -----

  class SlotData {
    var slotNumber: nat
    var status: bv8
    var status2: bv8
    var address: Adr
    var dirf: bv8
    var speed: bv8
    var sound: bv8
    var id1: bv8
    var id2: bv8

    ghost function Abs(): Entry reads this {
      Entry(status, status2, address, dirf, speed, sound, id1, id2)
    }

    constructor (d: SlotRead)
      ensures slotNumber == d.slot as nat && Abs() == EntryOf(d) && address == Adr(d.adr, d.adr2)
    {
      slotNumber := d.slot as nat;
      status, status2, address, dirf := d.stat, d.ss2, Adr(d.adr, d.adr2), d.dirf;
      speed, sound, id1, id2 := d.spd, d.snd, d.id1, d.id2;
    }

    method Set(d: SlotRead)
      modifies this
      ensures slotNumber == d.slot as nat && Abs() == EntryOf(d) && address == Adr(d.adr, d.adr2)
    {
      slotNumber := d.slot as nat;
      status, status2, address, dirf := d.stat, d.ss2, Adr(d.adr, d.adr2), d.dirf;
      speed, sound, id1, id2 := d.spd, d.snd, d.id1, d.id2;
    }
  }

  class CommandStationMirror {
    const bySlot: array<SlotData?>
    var byAddress: map<Adr, SlotData>

    /** Every entry sits at its own slot number. */
    ghost predicate Valid()
      reads this, bySlot, bySlot[..]
    {
      && bySlot.Length == SLOTS
      && forall i :: 0 <= i < SLOTS && bySlot[i] != null ==> bySlot[i].slotNumber == i
    }

    ghost function Abs(): Table
      requires Valid()
      reads this, bySlot, bySlot[..]
    {
      seq(SLOTS, i requires 0 <= i < SLOTS && Valid() reads this, bySlot, bySlot[..] =>
        if bySlot[i] == null then None else Some(bySlot[i].Abs()))
    }

    /** Searching by address finds exactly the entries of the slot table. */
    ghost predicate Inverse()
      requires Valid()
      reads this, bySlot, bySlot[..], byAddress.Values
    {
      && (forall i :: 0 <= i < SLOTS && bySlot[i] != null ==>
            bySlot[i].address in byAddress && byAddress[bySlot[i].address] == bySlot[i])
      && (forall a :: a in byAddress ==>
            && byAddress[a].address == a && byAddress[a].slotNumber < SLOTS
            && bySlot[byAddress[a].slotNumber] == byAddress[a])
    }

    constructor ()
      ensures Valid() && fresh(bySlot) && Abs() == EMPTY && Inverse()
    {
      bySlot := new SlotData?[SLOTS](_ => null);
      byAddress := map[];
    }

    /** Follows one received message; a message for slot 127 fails and changes nothing. */
    method OnMessage(h: Heard)
      requires Valid()
      modifies this, bySlot, bySlot[..]
      ensures Valid()
      ensures Abs() == Hear(old(Abs()), h)
      ensures old(Inverse()) ==> (Inverse() <==> KeepsAddresses(old(Abs()), h))
    {
      if h.origin == SentByUs { return; }
      match h.message
      case SlotMessage(d) => OnSlotMessage(d);
      case Dirf(n, v) => OnLocoMessage(n as nat, h.message);
      case Snd(n, v) => OnLocoMessage(n as nat, h.message);
      case Spd(n, v) => OnLocoMessage(n as nat, h.message);
      case Stat1(n, v) => OnLocoMessage(n as nat, h.message);
      case Unrelated =>
    }

    method OnSlotMessage(d: SlotRead)
      requires Valid()
      modifies this, bySlot, bySlot[..]
      ensures Valid()
      ensures Abs() == Hear(old(Abs()), Heard(FromNet, SlotMessage(d)))
      ensures old(Inverse()) ==> (Inverse() <==> KeepsAddresses(old(Abs()), Heard(FromNet, SlotMessage(d))))
    {
      hide Inverse, Abs, EntryOf, Hear, KeepsAddresses, Agreeable;
      var n := d.slot as nat;
      HearingSlotData(Abs(), d, n);
      if n >= SLOTS { return; }
      if bySlot[n] == null {
        Add(n, d);
      } else {
        Replace(n, d);
      }
    }

    /** Starts to track a slot. */
    method Add(n: nat, d: SlotRead)
      requires Valid() && n < SLOTS && n == d.slot as nat && bySlot[n] == null
      modifies this, bySlot
      ensures Valid() && Abs() == old(Abs())[n := Some(EntryOf(d))]
      ensures old(Inverse()) ==> (Inverse() <==> Agreeable(old(Abs()), n, Adr(d.adr, d.adr2)))
    {
      hide EntryOf, Inverse, Agreeable;
      var s := new SlotData(d);
      byAddress := byAddress[s.address := s];
      bySlot[n] := s;
      if old(Inverse()) {
        Tracked(n, s);
      }
    }

    /** A newly tracked slot leaves the address search right exactly when its address was free. */
    twostate lemma Tracked(n: nat, new s: SlotData)
      requires old(Valid() && Inverse()) && Valid() && n < SLOTS && fresh(s)
      requires old(bySlot[n]) == null && bySlot[..] == old(bySlot[..])[n := s] && s.slotNumber == n
      requires byAddress == old(byAddress)[s.address := s]
      requires forall i :: 0 <= i < SLOTS && old(bySlot[i]) != null ==> unchanged(old(bySlot[i]))
      ensures Inverse() <==> Agreeable(old(Abs()), n, s.address)
    {
      ghost var before, address := old(bySlot[..]), s.address;
      assert forall i :: 0 <= i < SLOTS ==> bySlot[i] == if i == n then s else before[i];
      assert forall a :: a in old(byAddress) ==> unchanged(old(byAddress)[a]);
      if j :| 0 <= j < SLOTS && before[j] != null && before[j].address == address {
        assert bySlot[j] == before[j] != byAddress[address];
        assert old(Abs())[j].value.address == address;
      } else {
        assert Inverse();
      }
    }

    /** Takes over new slot data for a tracked slot. */
    method Replace(n: nat, d: SlotRead)
      requires Valid() && n < SLOTS && n == d.slot as nat && bySlot[n] != null
      modifies bySlot[..]
      ensures Valid() && Abs() == old(Abs())[n := Some(EntryOf(d))]
      ensures old(Inverse()) ==> (Inverse() <==> Agreeable(old(Abs()), n, Adr(d.adr, d.adr2)))
    {
      bySlot[n].Set(d);
    }

    method OnLocoMessage(n: nat, m: Message)
      requires Valid() && SlotOf(m) == Some(n) && !m.SlotMessage?
      modifies bySlot[..]
      ensures Valid()
      ensures Abs() == Hear(old(Abs()), Heard(FromNet, m))
      ensures old(Inverse()) ==> Inverse()
    {
      if n >= SLOTS || bySlot[n] == null { return; }
      Change(n, m);
    }

    method Change(n: nat, m: Message)
      requires Valid() && n < SLOTS && bySlot[n] != null
      requires m.Dirf? || m.Snd? || m.Spd? || m.Stat1?
      modifies bySlot[n]
      ensures Valid() && Abs() == old(Abs())[n := Overlay(old(Abs())[n], m)]
      ensures old(Inverse()) ==> Inverse()
    {
      var data := bySlot[n];
      match m
      case Dirf(_, v) => data.dirf := v;
      case Snd(_, v) => data.sound := v;
      case Spd(_, v) => data.speed := v;
      case Stat1(_, v) => data.status := v;
    }

    /** Forgets a slot. */
    method Remove(n: nat) returns (found: bool)
      requires Valid() && n < SLOTS
      modifies this, bySlot
      ensures Valid() && Abs() == old(Abs())[n := None]
      ensures old(Inverse()) ==> Inverse() && found == old(bySlot[n] != null)
    {
      var s := bySlot[n];
      if s == null { return false; }
      bySlot[n] := null;
      found := s.address in byAddress;
      byAddress := byAddress - {s.address};
    }

    /** Searches by address. */
    function Find(address: Adr): SlotData?
      reads this
    {
      if address in byAddress then byAddress[address] else null
    }

    /** While both tables agree, the search finds exactly the slot whose entry has this address. */
    lemma FindIsInverse(address: Adr, n: nat)
      requires Valid() && Inverse() && n < SLOTS
      ensures (Find(address) != null && Find(address).slotNumber == n)
          <==> (Abs()[n].Some? && Abs()[n].value.address == address)
    {
    }
  }
}
