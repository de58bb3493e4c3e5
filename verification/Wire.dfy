/** The messages byte by byte: what each of the thirteen looks like, and what the send threads put on the wire. */
module Wire {
  import opened Frames
  import opened SlotBridge
  import C = Codec

  // ----- The thirteen messages -----

  /** The parser takes the bytes for a message with these values, which in turn is printed as these bytes. */
  predicate Stands(msg: seq<bv8>, values: seq<bv8>) {
    var p := C.ParseMessage(msg);
    && p.Known? && p.values == values && |values| == |p.layout.fields| && C.WellLaid(p.layout)
    && C.Encoded(p.layout, values) == msg
  }

  /** Bytes that carry these values and close with the right check byte. */
  lemma StandsFor(l: C.Layout, vs: seq<bv8>, msg: seq<bv8>)
    requires l in C.Formats() && C.Fits(l.fields, vs) && C.Carries(l, vs, msg)
    requires C.WellLaid(l) ==> C.Framed(l, msg)
    ensures Stands(msg, vs)
  {
    hide C.Formats, C.Encoded, C.XorAll, C.Carries, C.WellLaid, C.Framed, C.ParseMessage;
    C.CarriedIsFramed(l, vs, msg);
  }

  /** The check byte that completes a message. */
  function Closed(body: seq<bv8>): seq<bv8> {
    body + [0xFF ^ C.XorAll(body)]
  }

  lemma ClosedXors(body: seq<bv8>)
    ensures C.XorAll(Closed(body)) == 0xFF
  {
    assert Closed(body)[..|body|] == body;
    var x := C.XorAll(body);
    assert x ^ (0xFF ^ x) == 0xFF;
  }

  /** Opcode and, for a variable length, the length. */
  function Lead(l: C.Layout): seq<bv8>
    requires l.length <= 127
  {
    if C.IsVariableLength(l.opcode) then [l.opcode, l.length as bv8] else [l.opcode]
  }

  /** In all formats the fields follow each other, so their values stand between the header and the check byte. */
  lemma InARow(l: C.Layout, vs: seq<bv8>)
    requires l in C.Formats() && C.Laid(l) && C.Fits(l.fields, vs)
    ensures Stands(Closed(Lead(l) + vs), vs)
  {
    hide C.Formats, C.XorAll, C.WellLaid, Stands, C.Carries, C.Framed, C.Consecutive, Closed, Lead;
    RowCarries(l, vs);
    StandsFor(l, vs, Closed(Lead(l) + vs));
  }

  lemma RowCarries(l: C.Layout, vs: seq<bv8>)
    requires C.Laid(l) && |vs| == |l.fields|
    ensures C.Carries(l, vs, Closed(Lead(l) + vs)) && C.Framed(l, Closed(Lead(l) + vs))
  {
    hide C.XorAll, C.IsVariableLength;
    var msg := Closed(Lead(l) + vs);
    ClosedXors(Lead(l) + vs);
    forall i | 0 <= i < |vs| ensures l.fields[i].index < |msg| && msg[l.fields[i].index] == vs[i] {
      assert l.fields[i].index == |Lead(l)| + i;
    }
  }

  /** Opcode, two data bytes and the check byte. */
  function Four(opcode: bv8, a: bv8, b: bv8): seq<bv8> {
    [opcode, a, b, 0xFF ^ opcode ^ a ^ b]
  }

  lemma FourIsClosed(opcode: bv8, a: bv8, b: bv8)
    ensures Closed([opcode] + [a, b]) == Four(opcode, a, b)
  {
    var one, two, three := [opcode], [opcode, a], [opcode, a, b];
    assert three[..2] == two && two[..1] == one && one[..0] == [] && [opcode] + [a, b] == three;
    assert C.XorAll(one) == C.Xor(0, opcode);
    assert C.XorAll(two) == C.Xor(C.Xor(0, opcode), a);
    assert C.XorAll(three) == C.Xor(C.Xor(C.Xor(0, opcode), a), b);
    assert 0xFF ^ ((opcode ^ a) ^ b) == 0xFF ^ opcode ^ a ^ b;
  }

  lemma FourStands(opcode: bv8, a: bv8, b: bv8)
    requires C.Short(opcode) in C.Formats() && opcode >= 0x80 && !C.IsVariableLength(opcode) && a <= 127 && b <= 127
    ensures Stands(Four(opcode, a, b), [a, b])
  {
    hide C.Formats, Stands, C.IsVariableLength, Closed, Four;
    C.ShortIsLaid(opcode);
    InARow(C.Short(opcode), [a, b]);
    FourIsClosed(opcode, a, b);
  }

  lemma OtherFormats()
    ensures C.RequestLayout() in C.Formats() && C.ImmLayout() in C.Formats()
    ensures C.D5Layout() in C.Formats() && C.D4Layout() in C.Formats()
  {
    var fs := C.Formats();
    hide C.Short, C.SlotLayout, C.ImmLayout, C.RequestLayout, C.D5Layout, C.D4Layout;
    assert fs[6] == C.RequestLayout() && fs[10] == C.ImmLayout() && fs[11] == C.D5Layout() && fs[12] == C.D4Layout();
  }

  lemma FourByteFormats()
    ensures C.Short(0xBF) in C.Formats() && C.Short(0xA1) in C.Formats() && C.Short(0xA2) in C.Formats()
    ensures C.Short(0xA0) in C.Formats() && C.Short(0xB4) in C.Formats() && C.Short(0xB5) in C.Formats()
    ensures C.Short(0xBA) in C.Formats()
  {
    var fs := C.Formats();
    hide C.Short, C.SlotLayout, C.ImmLayout, C.RequestLayout, C.D5Layout, C.D4Layout;
    assert fs[0] == C.Short(0xBF) && fs[1] == C.Short(0xA1) && fs[2] == C.Short(0xA2) && fs[3] == C.Short(0xA0);
    assert fs[4] == C.Short(0xB4) && fs[5] == C.Short(0xB5) && fs[7] == C.Short(0xBA);
  }

  /**
   Loco address (0xBF), direction and F0..F4 (0xA1), F5..F8 (0xA2), speed (0xA0), long acknowledge (0xB4),
   slot status (0xB5) and slot move (0xBA), for all values.
   */
  lemma FourByteMessages(a: bv8, b: bv8)
    requires a <= 127 && b <= 127
    ensures Stands(Four(0xBF, a, b), [a, b])
    ensures Stands(Four(0xA1, a, b), [a, b])
    ensures Stands(Four(0xA2, a, b), [a, b])
    ensures Stands(Four(0xA0, a, b), [a, b])
    ensures Stands(Four(0xB4, a, b), [a, b])
    ensures Stands(Four(0xB5, a, b), [a, b])
    ensures Stands(Four(0xBA, a, b), [a, b])
  {
    hide Stands, C.Formats, C.Short, C.IsVariableLength, Four;
    C.OpcodesAreFixed();
    FourByteFormats();
    FourStands(0xBF, a, b);
    FourStands(0xA1, a, b);
    FourStands(0xA2, a, b);
    FourStands(0xA0, a, b);
    FourStands(0xB4, a, b);
    FourStands(0xB5, a, b);
    FourStands(0xBA, a, b);
  }

  /** Slot request: a zero, then the slot. */
  lemma RequestMessage(slot: bv8)
    requires slot <= 127
    ensures Stands(Four(0xBB, 0, slot), [0, slot])
  {
    hide C.Formats, Stands, Closed, C.Laid, C.IsVariableLength;
    OtherFormats();
    C.OpcodesAreFixed();
    C.OthersAreLaid();
    FourIsClosed(0xBB, 0, slot);
    InARow(C.RequestLayout(), [0, slot]);
  }

  /** The eleven bytes of a slot, in the order of its message. */
  function SlotValues(d: SlotRead): seq<bv8> {
    [d.slot, d.stat, d.adr, d.spd, d.dirf, d.trk, d.ss2, d.adr2, d.snd, d.id1, d.id2]
  }

  /** Slot data as a station reports it (0xE7) and as we write it (0xEF); 14 is the length. */
  lemma SlotMessages(d: SlotRead)
    ensures Stands(Closed([0xE7, 14] + SlotValues(d)), SlotValues(d))
    ensures Stands(Closed([0xEF, 14] + SlotValues(d)), SlotValues(d))
  {
    hide Stands, C.Formats, C.SlotLayout, C.IsVariableLength, SlotValues;
    C.OpcodesAreFixed();
    SlotFormats();
    SlotStands(0xE7, d);
    SlotStands(0xEF, d);
  }

  lemma SlotFormats()
    ensures C.SlotLayout(0xE7) in C.Formats() && C.SlotLayout(0xEF) in C.Formats()
  {
    hide C.Short, C.SlotLayout, C.ImmLayout, C.RequestLayout, C.D5Layout, C.D4Layout;
    assert C.Formats()[8] == C.SlotLayout(0xE7) && C.Formats()[9] == C.SlotLayout(0xEF);
  }

  lemma SlotStands(opcode: bv8, d: SlotRead)
    requires C.SlotLayout(opcode) in C.Formats() && opcode >= 0x80 && C.IsVariableLength(opcode)
    ensures Stands(Closed([opcode, 14] + SlotValues(d)), SlotValues(d))
  {
    hide C.Formats, Stands, Closed, C.Laid, C.IsVariableLength;
    C.SlotIsLaid(opcode);
    InARow(C.SlotLayout(opcode), SlotValues(d));
  }

  /** The immediate packet: length 11, a constant 0x7F, counts, top bits, and five data bytes. */
  lemma ImmediateMessage(reps: bv8, dhi: bv8, im: seq<bv8>)
    requires |im| == 5 && reps <= 127 && dhi <= 127 && forall i :: 0 <= i < 5 ==> im[i] <= 127
    ensures Stands(Closed([0xED, 11] + ([0x7F, reps, dhi] + im)), [0x7F, reps, dhi] + im)
  {
    hide C.Formats, Stands, Closed, C.Laid, C.IsVariableLength;
    OtherFormats();
    C.OpcodesAreFixed();
    C.ImmIsLaid();
    InARow(C.ImmLayout(), [0x7F, reps, dhi] + im);
  }

  /** The function messages 0xD5, with a constant 0x36 as third data byte, and 0xD4. */
  lemma FunctionMessages(a: bv8, b: bv8, c: bv8, d: bv8)
    requires a <= 127 && b <= 127 && c <= 127 && d <= 127
    ensures Stands(Closed([0xD5] + [a, b, 0x36, d]), [a, b, 0x36, d])
    ensures Stands(Closed([0xD4] + [a, b, c, d]), [a, b, c, d])
  {
    hide C.Formats, Stands, Closed, C.Laid, C.IsVariableLength;
    OtherFormats();
    C.OpcodesAreFixed();
    C.OthersAreLaid();
    InARow(C.D5Layout(), [a, b, 0x36, d]);
    InARow(C.D4Layout(), [a, b, c, d]);
  }

  /** Opcode and length of the thirteen. */
  predicate Listed(opcode: bv8, length: nat) {
    || (length == 4 && opcode in [0xBF, 0xA1, 0xA2, 0xA0, 0xB4, 0xB5, 0xBB, 0xBA])
    || (length == 14 && opcode in [0xE7, 0xEF])
    || (length == 11 && opcode == 0xED)
    || (length == 6 && opcode in [0xD5, 0xD4])
  }

  lemma FormatsAreListed(i: nat)
    requires i < 13
    ensures |C.Formats()| == 13 && Listed(C.Formats()[i].opcode, C.Formats()[i].length)
  {
  }

  lemma ListedIsAFormat(opcode: bv8, length: nat) returns (i: nat)
    requires Listed(opcode, length)
    ensures i < |C.Formats()| && C.Formats()[i].opcode == opcode && C.Formats()[i].length == length
  {
    i := if opcode == 0xBF then 0 else if opcode == 0xA1 then 1 else if opcode == 0xA2 then 2
         else if opcode == 0xA0 then 3 else if opcode == 0xB4 then 4 else if opcode == 0xB5 then 5
         else if opcode == 0xBB then 6 else if opcode == 0xBA then 7 else if opcode == 0xE7 then 8
         else if opcode == 0xEF then 9 else if opcode == 0xED then 10 else if opcode == 0xD5 then 11 else 12;
  }

  /** Nothing else is known, and all of these are: known, or refused by one of their fields. */
  lemma OthersAreUnknown(msg: seq<bv8>)
    requires msg != []
    ensures C.ParseMessage(msg).Unknown? <==> !Listed(msg[0], |msg| % 256)
  {
    hide C.Formats, C.Find, C.Decodes, C.Picked, Listed;
    var key := C.KeyOf(msg);
    if C.Find(C.Formats(), key).Some? {
      C.FoundIsAFormat(key);
      var l := C.Find(C.Formats(), key).value;
      FormatsAreListed(0);
      var i :| 0 <= i < |C.Formats()| && C.Formats()[i] == l;
      FormatsAreListed(i);
    }
    if Listed(msg[0], |msg| % 256) {
      var i := ListedIsAFormat(msg[0], |msg| % 256);
      C.FormatIsFound(C.Formats()[i]);
    }
  }

  // ----- What the send threads send -----

  /** The bytes of a frame. */
  function OnWire(f: Frame): seq<bv8> {
    match f
    case LocoAdr(adr, adrHigh) => Four(0xBF, adrHigh, adr)
    case MoveSlots(src, dest) => Four(0xBA, src, dest)
    case WrSlData(d) => Closed([0xEF, 14] + SlotValues(d))
    case LocoSpd(slot, spd) => Four(0xA0, slot, spd)
    case LocoDirf(slot, dirf) => Four(0xA1, slot, dirf)
    case LocoSnd(slot, snd) => Four(0xA2, slot, snd)
    case SlotStat1(slot, stat1) => Four(0xB5, slot, stat1)
  }

  /** Its field values, in the order of their bytes. */
  function ValuesOf(f: Frame): seq<bv8> {
    match f
    case LocoAdr(adr, adrHigh) => [adrHigh, adr]
    case MoveSlots(src, dest) => [src, dest]
    case WrSlData(d) => SlotValues(d)
    case LocoSpd(slot, spd) => [slot, spd]
    case LocoDirf(slot, dirf) => [slot, dirf]
    case LocoSnd(slot, snd) => [slot, snd]
    case SlotStat1(slot, stat1) => [slot, stat1]
  }

  lemma FrameStands(f: Frame)
    requires Sendable(f)
    ensures Stands(OnWire(f), ValuesOf(f))
  {
    hide Stands, Closed, Four;
    match f
    case LocoAdr(adr, adrHigh) => FourByteMessages(adrHigh, adr);
    case MoveSlots(src, dest) => FourByteMessages(src, dest);
    case WrSlData(d) => SlotMessages(d);
    case LocoSpd(slot, spd) => FourByteMessages(slot, spd);
    case LocoDirf(slot, dirf) => FourByteMessages(slot, dirf);
    case LocoSnd(slot, snd) => FourByteMessages(slot, snd);
    case SlotStat1(slot, stat1) => FourByteMessages(slot, stat1);
  }

  /** The lookup of a loco carries the upper part of its number first. */
  lemma LookupOnWire(a: Address)
    requires a.Valid()
    ensures var msg := OnWire(LocoAdr(a.Low(), a.High()));
            |msg| == 4 && msg[0] == 0xBF && msg[1] as int == a.number / 128 && msg[2] as int == a.number % 128
  {
    AddressBytes(a);
    hide Address.Low, Address.High;
  }

  /** Every frame of every run is a message of the program: printed as these bytes, and read back by any client. */
  lemma EveryFrameIsAMessage(run: seq<Step>, env: Env, k: nat)
    requires IsRun(run, env) && k < |Exec(run, env).log| && Exec(run, env).log[k].Sent?
    ensures var f := Exec(run, env).log[k].frame; Stands(OnWire(f), ValuesOf(f))
  {
    hide Stands, OnWire, ValuesOf, IsRun, Exec;
    FrameStands(Exec(run, env).log[k].frame);
  }
}
