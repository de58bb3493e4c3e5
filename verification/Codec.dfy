/**
 Encoding and decoding of the known LocoNet messages. A layout lists the data bytes of a message
 by index, in the order in which the fields happen to be enumerated.
 */
module Codec {
  import opened Wrappers
  import opened Fields

  datatype FieldAt = FieldAt(index: nat, constant: Option<bv8>)

  datatype Layout = Layout(opcode: bv8, length: nat, fields: seq<FieldAt>)

  predicate IsVariableLength(opcode: bv8) {
    opcode & 0x60 == 0x60
  }

  /** Data starts behind the opcode and, for a variable length, behind the length byte. */
  function FirstData(l: Layout): nat {
    if IsVariableLength(l.opcode) then 2 else 1
  }

  /** The fields sit at distinct indexes between header and check byte. */
  predicate WellLaid(l: Layout) {
    && l.opcode >= 0x80 && FirstData(l) < l.length <= 127
    && (forall i :: 0 <= i < |l.fields| ==> FirstData(l) <= l.fields[i].index < l.length - 1)
    && (forall i, j :: 0 <= i < j < |l.fields| ==> l.fields[i].index != l.fields[j].index)
    && (forall i :: 0 <= i < |l.fields| && l.fields[i].constant.Some? ==> l.fields[i].constant.value <= 127)
  }

  predicate Accepts(f: FieldAt, v: bv8) {
    if f.constant.Some? then v == f.constant.value else v <= 127
  }

  /** Values that the fields of a layout can hold. */
  predicate Fits(fs: seq<FieldAt>, vs: seq<bv8>) {
    |vs| == |fs| && forall i :: 0 <= i < |fs| ==> Accepts(fs[i], vs[i])
  }

  function Xor(a: bv8, b: bv8): bv8 {
    a ^ b
  }

  function XorAll(s: seq<bv8>): bv8 {
    if s == [] then 0 else Xor(XorAll(s[..|s| - 1]), s[|s| - 1])
  }

  /** Writes every field to its index. */
  function Fill(msg: seq<bv8>, fs: seq<FieldAt>, vs: seq<bv8>): (r: seq<bv8>)
    requires |vs| == |fs| && forall i :: 0 <= i < |fs| ==> fs[i].index < |msg|
    ensures |r| == |msg|
  {
    if fs == [] then msg
    else Fill(msg, fs[..|fs| - 1], vs[..|fs| - 1])[fs[|fs| - 1].index := vs[|fs| - 1]]
  }

  /** Opcode, length byte where there is one, and zeros. */
  function Blank(l: Layout): (msg: seq<bv8>)
    requires FirstData(l) < l.length <= 127
    ensures |msg| == l.length - 1
  {
    (if IsVariableLength(l.opcode) then [l.opcode, l.length as bv8] else [l.opcode])
      + seq(l.length - 1 - FirstData(l), _ => 0)
  }

  function Encoded(l: Layout, vs: seq<bv8>): (msg: seq<bv8>)
    requires WellLaid(l) && |vs| == |l.fields|
    ensures |msg| == l.length
  {
    var body := Fill(Blank(l), l.fields, vs);
    body + [Xor(0xFF, XorAll(body))]
  }

  /** The bytes at the fields' indexes. */
  function Picked(fs: seq<FieldAt>, data: seq<bv8>): seq<bv8>
    requires forall i :: 0 <= i < |fs| ==> fs[i].index < |data|
  {
    seq(|fs|, i requires 0 <= i < |fs| => data[fs[i].index])
  }

  predicate Decodes(fs: seq<FieldAt>, data: seq<bv8>) {
    forall i :: 0 <= i < |fs| ==> fs[i].index < |data| && Accepts(fs[i], data[fs[i].index])
  }

  // ----- The two directions -----

  /** Every field's byte is at its index, and no other byte is touched. */
  lemma {:induction false} FilledBytes(msg: seq<bv8>, fs: seq<FieldAt>, vs: seq<bv8>, i: nat)
    requires |vs| == |fs| && forall k :: 0 <= k < |fs| ==> fs[k].index < |msg|
    requires forall j, k :: 0 <= j < k < |fs| ==> fs[j].index != fs[k].index
    ensures i < |fs| ==> Fill(msg, fs, vs)[fs[i].index] == vs[i]
    ensures i < |msg| && (forall k :: 0 <= k < |fs| ==> fs[k].index != i) ==> Fill(msg, fs, vs)[i] == msg[i]
  {
    if fs != [] {
      FilledBytes(msg, fs[..|fs| - 1], vs[..|fs| - 1], i);
    }
  }

  lemma EncodedBytes(l: Layout, vs: seq<bv8>, i: nat)
    requires WellLaid(l) && |vs| == |l.fields|
    ensures i < |vs| ==> Encoded(l, vs)[l.fields[i].index] == vs[i]
    ensures i < FirstData(l) ==> Encoded(l, vs)[i] == Blank(l)[i]
    ensures i < l.length - 1 && (forall k :: 0 <= k < |vs| ==> l.fields[k].index != i) ==>
              Encoded(l, vs)[i] == Blank(l)[i]
  {
    FilledBytes(Blank(l), l.fields, vs, i);
  }

  /** Decoding an encoded message gives back every field. */
  lemma DecodeAfterEncode(l: Layout, vs: seq<bv8>)
    requires WellLaid(l) && Fits(l.fields, vs)
    ensures Decodes(l.fields, Encoded(l, vs)) && Picked(l.fields, Encoded(l, vs)) == vs
  {
    forall i | 0 <= i < |vs| ensures Encoded(l, vs)[l.fields[i].index] == vs[i] {
      EncodedBytes(l, vs, i);
    }
  }

  lemma XorStep(s: seq<bv8>, b: bv8)
    ensures Xor(0xFF, XorAll(s + [b])) == Xor(Xor(0xFF, XorAll(s)), b)
    ensures XorAll([]) == 0 && Xor(0xFF, 0) == 0xFF
  {
    assert (s + [b])[..|s|] == s;
    var x := XorAll(s);
    assert 0xFF ^ (x ^ b) == (0xFF ^ x) ^ b;
  }

  lemma {:induction false} XorTopBit(s: seq<bv8>)
    requires s != [] && s[0] >= 0x80 && forall i :: 1 <= i < |s| ==> s[i] <= 127
    ensures XorAll(s) >= 0x80
  {
    if |s| == 1 {
      assert XorAll(s[..0]) == 0;
      assert 0 ^ s[0] == s[0];
    } else {
      XorTopBit(s[..|s| - 1]);
      XorKeepsTopBit(XorAll(s[..|s| - 1]), s[|s| - 1]);
    }
  }

  lemma XorKeepsTopBit(a: bv8, b: bv8)
    requires a >= 0x80 && b <= 127
    ensures a ^ b >= 0x80
  {
  }

  lemma CheckByte(x: bv8, c: bv8)
    ensures x ^ (0xFF ^ x) == 0xFF
    ensures x >= 0x80 ==> 0xFF ^ x <= 127
    ensures x ^ c == 0xFF ==> c == 0xFF ^ x
  {
  }

  /** The check byte closes a message, and keeps its own top bit clear. */
  lemma CheckByteCloses(body: seq<bv8>, msg: seq<bv8>)
    requires body != [] && body[0] >= 0x80 && forall i :: 1 <= i < |body| ==> body[i] <= 127
    requires msg == body + [Xor(0xFF, XorAll(body))]
    ensures XorAll(msg) == 0xFF && msg[|body|] <= 127
  {
    XorTopBit(body);
    var x := XorAll(body);
    assert msg[..|body|] == body;
    CheckByte(x, 0);
  }

  /** Among messages that pass the check, the check byte follows from the rest. */
  lemma CheckByteFollows(a: seq<bv8>, b: seq<bv8>)
    requires |a| == |b| != 0 && XorAll(a) == 0xFF == XorAll(b) && a[..|a| - 1] == b[..|a| - 1]
    ensures a == b
  {
    var n := |a| - 1;
    CheckByte(XorAll(a[..n]), a[n]);
    CheckByte(XorAll(b[..n]), b[n]);
    assert a == a[..n] + [a[n]] && b == b[..n] + [b[n]];
  }

  lemma EncodedByteSize(l: Layout, vs: seq<bv8>, i: nat)
    requires WellLaid(l) && Fits(l.fields, vs) && 1 <= i < l.length - 1
    ensures Encoded(l, vs)[i] <= 127
  {
    hide Encoded;
    if HasField(l, i) {
      var k :| 0 <= k < |l.fields| && l.fields[k].index == i;
      EncodedBytes(l, vs, k);
    } else {
      EncodedBytes(l, vs, i);
      assert (l.length as bv8) <= 127;
    }
  }

  /** An encoded message passes the check, and only the opcode has the top bit set. */
  lemma EncodedIsOnTheWire(l: Layout, vs: seq<bv8>)
    requires WellLaid(l) && Fits(l.fields, vs)
    ensures XorAll(Encoded(l, vs)) == 0xFF
    ensures Encoded(l, vs)[0] == l.opcode && forall i :: 1 <= i < l.length ==> Encoded(l, vs)[i] <= 127
  {
    var msg := Encoded(l, vs);
    var body := msg[..l.length - 1];
    assert body == Fill(Blank(l), l.fields, vs);
    assert msg == body + [Xor(0xFF, XorAll(body))];
    EncodedBytes(l, vs, 0);
    assert body[0] == l.opcode;
    hide Encoded, Fill, WellLaid, Fits, XorAll;
    forall i | 1 <= i < l.length - 1 ensures body[i] <= 127 {
      EncodedByteSize(l, vs, i);
    }
    CheckByteCloses(body, msg);
  }

  /** A field sits at this index. */
  predicate HasField(l: Layout, i: nat) {
    exists k :: 0 <= k < |l.fields| && l.fields[k].index == i
  }

  /** The fields leave no data byte out. */
  predicate Covers(l: Layout) {
    forall i :: FirstData(l) <= i < l.length - 1 ==> HasField(l, i)
  }

  /** What decoding does not look at: the header and the check byte. */
  predicate Framed(l: Layout, msg: seq<bv8>)
    requires FirstData(l) < l.length <= 127
  {
    && |msg| == l.length && msg[0] == l.opcode
    && (IsVariableLength(l.opcode) ==> msg[1] == l.length as bv8)
    && XorAll(msg) == 0xFF
  }

  lemma ReencodedByte(l: Layout, msg: seq<bv8>, i: nat)
    requires WellLaid(l) && Covers(l) && Decodes(l.fields, msg) && Framed(l, msg) && i < l.length - 1
    ensures Encoded(l, Picked(l.fields, msg))[i] == msg[i]
  {
    hide Encoded;
    var vs := Picked(l.fields, msg);
    if i >= FirstData(l) {
      assert HasField(l, i);
      var k :| 0 <= k < |l.fields| && l.fields[k].index == i;
      EncodedBytes(l, vs, k);
    } else {
      EncodedBytes(l, vs, i);
    }
  }

  /** Encoding the decoded fields gives the very bytes received exactly when header and check byte were right. */
  lemma EncodeAfterDecode(l: Layout, msg: seq<bv8>)
    requires WellLaid(l) && Covers(l) && Decodes(l.fields, msg)
    ensures Encoded(l, Picked(l.fields, msg)) == msg <==> Framed(l, msg)
  {
    var vs := Picked(l.fields, msg);
    var out, n := Encoded(l, vs), l.length - 1;
    EncodedBytes(l, vs, 0);
    EncodedBytes(l, vs, 1);
    assert Fits(l.fields, vs);
    hide Encoded, Decodes, Picked, WellLaid, XorAll;
    EncodedIsOnTheWire(l, vs);
    if Framed(l, msg) {
      forall i | 0 <= i < n ensures out[i] == msg[i] {
        ReencodedByte(l, msg, i);
      }
      CheckByteFollows(out, msg);
    }
  }

  // ----- The known messages -----

  /** Opcode, two data bytes, check byte. */
  function Short(opcode: bv8): Layout {
    Layout(opcode, 4, [FieldAt(1, None), FieldAt(2, None)])
  }

  /** The eleven slot bytes. */
  function SlotLayout(opcode: bv8): Layout {
    Layout(opcode, 14, seq(11, i requires 0 <= i < 11 => FieldAt(i + 2, None)))
  }

  function ImmLayout(): Layout {
    Layout(0xED, 11, [FieldAt(2, Some(0x7F))] + seq(7, i requires 0 <= i < 7 => FieldAt(i + 3, None)))
  }

  function RequestLayout(): Layout {
    Layout(0xBB, 4, [FieldAt(1, Some(0)), FieldAt(2, None)])
  }

  function D5Layout(): Layout {
    Layout(0xD5, 6, [FieldAt(1, None), FieldAt(2, None), FieldAt(3, Some(0x36)), FieldAt(4, None)])
  }

  function D4Layout(): Layout {
    Layout(0xD4, 6, [FieldAt(1, None), FieldAt(2, None), FieldAt(3, None), FieldAt(4, None)])
  }

  /** Loco address, DIRF, SND, speed, long acknowledge, slot status, slot request, slot move, the two slot data
      messages, immediate packet, and the two function messages. */
  function Formats(): seq<Layout> {
    [ Short(0xBF), Short(0xA1), Short(0xA2), Short(0xA0), Short(0xB4), Short(0xB5),
      RequestLayout(), Short(0xBA), SlotLayout(0xE7), SlotLayout(0xEF), ImmLayout(), D5Layout(), D4Layout() ]
  }

  /** The fields follow each other without a gap. */
  predicate Consecutive(l: Layout) {
    && |l.fields| == l.length - 1 - FirstData(l)
    && forall i :: 0 <= i < |l.fields| ==> l.fields[i].index == FirstData(l) + i && l.fields[i].constant.GetOr(0) <= 127
  }

  lemma LaidIsWellLaid(l: Layout)
    requires Laid(l)
    ensures WellLaid(l) && Covers(l)
  {
    forall i | FirstData(l) <= i < l.length - 1 ensures HasField(l, i) {
      assert l.fields[i - FirstData(l)].index == i;
    }
  }

  /** A layout as the wire needs it, with its fields in a row. */
  predicate Laid(l: Layout) {
    l.opcode >= 0x80 && FirstData(l) < l.length <= 127 && Consecutive(l)
  }

  lemma ShortIsLaid(opcode: bv8)
    requires opcode >= 0x80 && !IsVariableLength(opcode)
    ensures Laid(Short(opcode))
  {
  }

  lemma SlotIsLaid(opcode: bv8)
    requires opcode >= 0x80 && IsVariableLength(opcode)
    ensures Laid(SlotLayout(opcode))
  {
  }

  lemma ImmIsLaid()
    ensures Laid(ImmLayout())
  {
  }

  lemma OthersAreLaid()
    ensures Laid(RequestLayout()) && Laid(D5Layout()) && Laid(D4Layout())
  {
  }

  lemma OpcodesAreFixed()
    ensures !IsVariableLength(0xBF) && !IsVariableLength(0xA1) && !IsVariableLength(0xA2) && !IsVariableLength(0xA0)
    ensures !IsVariableLength(0xB4) && !IsVariableLength(0xB5) && !IsVariableLength(0xBA)
    ensures !IsVariableLength(0xBB) && !IsVariableLength(0xD5) && !IsVariableLength(0xD4)
    ensures IsVariableLength(0xE7) && IsVariableLength(0xEF) && IsVariableLength(0xED)
  {
  }

  /** Every known layout is well laid, and no data byte is left out. */
  lemma FormatsAreWellLaid(l: Layout)
    requires l in Formats()
    ensures WellLaid(l) && Covers(l)
  {
    hide WellLaid, Covers, Laid, IsVariableLength, Short, SlotLayout, ImmLayout, RequestLayout, D5Layout, D4Layout;
    OpcodesAreFixed();
    ShortIsLaid(0xBF);
    ShortIsLaid(0xA1);
    ShortIsLaid(0xA2);
    ShortIsLaid(0xA0);
    ShortIsLaid(0xB4);
    ShortIsLaid(0xB5);
    ShortIsLaid(0xBA);
    SlotIsLaid(0xE7);
    SlotIsLaid(0xEF);
    ImmIsLaid();
    OthersAreLaid();
    LaidIsWellLaid(l);
  }

  /** No two known messages have the same opcode. */
  lemma OpcodesDiffer(i: nat, j: nat)
    requires i < j < |Formats()|
    ensures Formats()[i].opcode != Formats()[j].opcode
  {
  }

  // ----- Lookup -----

  datatype Key = Key(opcode: bv8, length: nat)

  /** Null for an unknown message, an exception, or the message type and its field values. */
  datatype Parse = Unknown | Failed | Known(layout: Layout, values: seq<bv8>)

  function Find(fs: seq<Layout>, key: Key): Option<Layout> {
    if fs == [] then None
    else if Key(fs[0].opcode, fs[0].length) == key then Some(fs[0])
    else Find(fs[1..], key)
  }

  /** The length is cut to a byte before the search. */
  function KeyOf(msg: seq<bv8>): Key
    requires msg != []
  {
    Key(msg[0], |msg| % 256)
  }

  function ParseMessage(msg: seq<bv8>): Parse {
    if msg == [] then Failed
    else match Find(Formats(), KeyOf(msg))
      case None => Unknown
      case Some(l) => if Decodes(l.fields, msg) then Known(l, Picked(l.fields, msg)) else Failed
  }

  lemma {:induction false} FindIsFaithful(fs: seq<Layout>, key: Key, i: nat)
    requires forall j, k :: 0 <= j < k < |fs| ==> fs[j].opcode != fs[k].opcode
    ensures i < |fs| && Key(fs[i].opcode, fs[i].length) == key ==> Find(fs, key) == Some(fs[i])
    ensures Find(fs, key).Some? ==>
              var l := Find(fs, key).value; l in fs && Key(l.opcode, l.length) == key
  {
    if fs != [] && Key(fs[0].opcode, fs[0].length) != key {
      FindIsFaithful(fs[1..], key, if i == 0 then 0 else i - 1);
    }
  }

  lemma FormatIsFound(l: Layout)
    requires l in Formats()
    ensures Find(Formats(), Key(l.opcode, l.length)) == Some(l)
  {
    hide Formats, Find;
    forall j, k | 0 <= j < k < |Formats()| ensures Formats()[j].opcode != Formats()[k].opcode {
      OpcodesDiffer(j, k);
    }
    var i :| 0 <= i < |Formats()| && Formats()[i] == l;
    FindIsFaithful(Formats(), Key(l.opcode, l.length), i);
  }

  function FoundOr(found: Option<Layout>, l: Layout, key: Key): Option<Layout> {
    if found.None? && Key(l.opcode, l.length) == key then Some(l) else found
  }

  lemma {:induction false} FindInMore(fs: seq<Layout>, l: Layout, key: Key)
    ensures Find(fs + [l], key) == FoundOr(Find(fs, key), l, key)
  {
    if fs == [] {
      assert Find([l][1..], key) == None;
    } else {
      assert (fs + [l])[1..] == fs[1..] + [l];
      FindInMore(fs[1..], l, key);
    }
  }

  lemma NotYetAdded(i: nat)
    requires i < |Formats()|
    ensures Find(Formats()[..i], Key(Formats()[i].opcode, Formats()[i].length)).None?
  {
    hide Formats, Find;
    var fs := Formats()[..i];
    forall j, k | 0 <= j < k <= i ensures Formats()[j].opcode != Formats()[k].opcode {
      OpcodesDiffer(j, k);
    }
    FindIsFaithful(fs, Key(Formats()[i].opcode, Formats()[i].length), 0);
  }

  lemma FoundIsAFormat(key: Key)
    requires Find(Formats(), key).Some?
    ensures var l := Find(Formats(), key).value; l in Formats() && Key(l.opcode, l.length) == key
  {
    hide Formats, Find;
    forall j, k | 0 <= j < k < |Formats()| ensures Formats()[j].opcode != Formats()[k].opcode {
      OpcodesDiffer(j, k);
    }
    FindIsFaithful(Formats(), key, 0);
  }

  /** Every known message survives the wire: same type, same field values. */
  lemma ParseAfterEncode(l: Layout, vs: seq<bv8>)
    requires l in Formats() && Fits(l.fields, vs)
    ensures WellLaid(l) && ParseMessage(Encoded(l, vs)) == Known(l, vs)
  {
    hide Formats, Find, Encoded, Covers, Picked, Decodes, XorAll, Blank;
    FormatsAreWellLaid(l);
    FormatIsFound(l);
    DecodeAfterEncode(l, vs);
    EncodedIsOnTheWire(l, vs);
    assert KeyOf(Encoded(l, vs)) == Key(l.opcode, l.length);
  }

  /** The parser checks neither check byte nor length byte: whatever it accepts can be printed again, and the same
      bytes come out exactly when both were right (and the length was not cut). */
  lemma EncodeAfterParse(msg: seq<bv8>)
    requires ParseMessage(msg).Known?
    ensures var l := ParseMessage(msg).layout;
            && WellLaid(l) && Fits(l.fields, ParseMessage(msg).values)
            && (Encoded(l, ParseMessage(msg).values) == msg <==> Framed(l, msg))
  {
    hide Formats, Encoded, Find;
    FoundIsAFormat(KeyOf(msg));
    var l := ParseMessage(msg).layout;
    FormatsAreWellLaid(l);
    EncodeAfterDecode(l, msg);
  }

  /** What the parser looks at: the opcode, the length modulo 256, and the bytes at the fields' indexes. */
  predicate Carries(l: Layout, vs: seq<bv8>, msg: seq<bv8>) {
    && msg != [] && msg[0] == l.opcode && |msg| % 256 == l.length
    && |vs| == |l.fields|
    && forall i :: 0 <= i < |vs| ==> l.fields[i].index < |msg| && msg[l.fields[i].index] == vs[i]
  }

  /** A message is taken for these values exactly when it carries them; nothing else is checked. */
  lemma ParsedExactlyWhenCarried(l: Layout, vs: seq<bv8>, msg: seq<bv8>)
    requires l in Formats() && Fits(l.fields, vs)
    ensures ParseMessage(msg) == Known(l, vs) <==> Carries(l, vs, msg)
  {
    hide Formats, Find;
    FormatIsFound(l);
    if ParseMessage(msg) == Known(l, vs) {
      FoundIsAFormat(KeyOf(msg));
    }
    if Carries(l, vs, msg) {
      assert Picked(l.fields, msg) == vs;
    }
  }

  /** A message that carries the values is well framed only if it is the very encoding. */
  lemma CarriedIsFramed(l: Layout, vs: seq<bv8>, msg: seq<bv8>)
    requires l in Formats() && Fits(l.fields, vs) && Carries(l, vs, msg)
    ensures WellLaid(l) && ParseMessage(msg) == Known(l, vs)
    ensures Framed(l, msg) <==> msg == Encoded(l, vs)
  {
    hide Formats, Find, Encoded, Covers, Picked, Decodes, XorAll, Blank, Carries, WellLaid;
    FormatsAreWellLaid(l);
    ParsedExactlyWhenCarried(l, vs, msg);
    EncodeAfterParse(msg);
  }

  /** Any check byte is accepted. */
  lemma WrongCheckByteIsAccepted(l: Layout, vs: seq<bv8>, b: bv8)
    requires l in Formats() && Fits(l.fields, vs)
    ensures WellLaid(l)
    ensures var m := Encoded(l, vs);
            var m1 := m[l.length - 1 := b];
            && ParseMessage(m1) == Known(l, vs)
            && (Framed(l, m1) <==> b == m[l.length - 1])
  {
    hide Formats, Find, Encoded, Covers, XorAll, Blank;
    FormatsAreWellLaid(l);
    ParseAfterEncode(l, vs);
    var m := Encoded(l, vs);
    ParsedExactlyWhenCarried(l, vs, m);
    CarriedIsFramed(l, vs, m[l.length - 1 := b]);
  }

  /** So is any length byte. */
  lemma WrongLengthByteIsAccepted(l: Layout, vs: seq<bv8>, b: bv8)
    requires l in Formats() && Fits(l.fields, vs) && IsVariableLength(l.opcode)
    ensures WellLaid(l)
    ensures var m1 := Encoded(l, vs)[1 := b];
            && ParseMessage(m1) == Known(l, vs)
            && (Framed(l, m1) <==> b == l.length as bv8)
  {
    hide Formats, Find, Encoded, Covers, XorAll, Blank;
    FormatsAreWellLaid(l);
    ParseAfterEncode(l, vs);
    var m := Encoded(l, vs);
    ParsedExactlyWhenCarried(l, vs, m);
    CarriedIsFramed(l, vs, m);
    CarriedIsFramed(l, vs, m[1 := b]);
  }

  /** And a message followed by any multiple of 256 bytes. */
  lemma LongMessageIsAccepted(l: Layout, vs: seq<bv8>, tail: seq<bv8>)
    requires l in Formats() && Fits(l.fields, vs) && |tail| % 256 == 0
    ensures WellLaid(l)
    ensures var m1 := Encoded(l, vs) + tail;
            && ParseMessage(m1) == Known(l, vs)
            && (Framed(l, m1) <==> tail == [])
  {
    hide Formats, Find, Encoded, Covers, XorAll, Blank;
    FormatsAreWellLaid(l);
    ParseAfterEncode(l, vs);
    var m := Encoded(l, vs);
    ParsedExactlyWhenCarried(l, vs, m);
    assert m + [] == m;
    CarriedIsFramed(l, vs, m + tail);
  }

  // ----- The objects -----

  /** A message of a known format: one field object for every field of its layout. */
  class Format {
    const layout: Layout
    const fields: seq<Field7Bit>

    ghost function Values(): seq<bv8> reads fields {
      seq(|fields|, i requires 0 <= i < |fields| reads fields => fields[i].Value())
    }

    ghost predicate Valid() reads fields {
      && WellLaid(layout) && |fields| == |layout.fields| && Fits(layout.fields, Values())
      && (forall i :: 0 <= i < |fields| ==> FieldAt(fields[i].index, fields[i].constant) == layout.fields[i])
      && (forall i, j :: 0 <= i < j < |fields| ==> fields[i] != fields[j])
    }

    constructor (layout: Layout)
      requires WellLaid(layout)
      ensures Valid() && this.layout == layout && fresh(fields)
    {
      var fs: seq<Field7Bit> := [];
      for i := 0 to |layout.fields|
        invariant |fs| == i && fresh(fs)
        invariant forall k :: 0 <= k < i ==>
                    FieldAt(fs[k].index, fs[k].constant) == layout.fields[k] && fs[k].stored == 0
        invariant forall j, k :: 0 <= j < k < i ==> fs[j] != fs[k]
      {
        var f := new Field7Bit(layout.fields[i].index, layout.fields[i].constant);
        fs := fs + [f];
      }
      this.layout := layout;
      fields := fs;
    }

    /** Takes the fields from received bytes; a field that refuses its byte stops it. */
    method Decode(data: seq<bv8>) returns (ok: bool)
      requires Valid()
      modifies fields
      ensures Valid() && ok == Decodes(layout.fields, data)
      ensures ok ==> Values() == Picked(layout.fields, data)
    {
      hide WellLaid, Accepts;
      ok := true;
      for i := 0 to |fields|
        invariant Valid()
        invariant forall k :: 0 <= k < i ==>
          var at := layout.fields[k].index;
          at < |data| && Accepts(layout.fields[k], data[at]) && Values()[k] == data[at]
      {
        ok := TakeByte(i, data);
        if !ok { return; }
      }
    }

    /** One field takes its byte, or refuses it and stays as it is. */
    method TakeByte(i: nat, data: seq<bv8>) returns (ok: bool)
      requires Valid() && i < |fields|
      modifies fields[i]
      ensures Valid()
      ensures ok == (layout.fields[i].index < |data| && Accepts(layout.fields[i], data[layout.fields[i].index]))
      ensures Values() == if ok then old(Values())[i := data[layout.fields[i].index]] else old(Values())
    {
      hide WellLaid;
      if fields[i].index >= |data| { return false; }
      ok := fields[i].Set(data[fields[i].index]);
    }

    method Encode() returns (msg: array<bv8>)
      requires Valid()
      ensures fresh(msg) && msg[..] == Encoded(layout, Values())
    {
      hide XorAll, Xor, Blank, Fill, Fits, IsVariableLength;
      msg := WithHeader(layout);
      var n := layout.length - 1;
      PutFields(msg);
      var check := CheckOf(msg, n);
      msg[n] := check;
    }

    method PutFields(msg: array<bv8>)
      requires Valid() && msg.Length == layout.length
      modifies msg
      ensures msg[..layout.length - 1] == Fill(old(msg[..layout.length - 1]), layout.fields, Values())
    {
      hide Fits, IsVariableLength;
      ghost var was := msg[..layout.length - 1];
      for i := 0 to |fields|
        invariant msg[..layout.length - 1] == Fill(was, layout.fields[..i], Values()[..i])
      {
        ghost var before := msg[..layout.length - 1];
        var at := fields[i].index;
        msg[at] := fields[i].Value();
        assert msg[..layout.length - 1] == before[at := Values()[i]];
        assert layout.fields[..i + 1][..i] == layout.fields[..i] && Values()[..i + 1][..i] == Values()[..i];
        assert layout.fields[..i + 1][i].index == at && Values()[..i + 1][i] == Values()[i];
      }
      assert layout.fields[..|fields|] == layout.fields && Values()[..|fields|] == Values();
    }
  }

  /** Opcode and length byte in front of zeros. */
  method WithHeader(l: Layout) returns (msg: array<bv8>)
    requires FirstData(l) < l.length <= 127
    ensures fresh(msg) && msg.Length == l.length && msg[..l.length - 1] == Blank(l)
  {
    msg := new bv8[l.length](_ => 0);
    msg[0] := l.opcode;
    if IsVariableLength(l.opcode) {
      msg[1] := l.length as bv8;
    }
  }

  /** The check byte over the first n bytes. */
  method CheckOf(msg: array<bv8>, n: nat) returns (check: bv8)
    requires n <= msg.Length
    ensures check == Xor(0xFF, XorAll(msg[..n]))
  {
    hide Xor, XorAll;
    check := 0xFF;
    XorStep([], 0);
    for i := 0 to n
      invariant check == Xor(0xFF, XorAll(msg[..i]))
    {
      assert msg[..i + 1] == msg[..i] + [msg[i]];
      XorStep(msg[..i], msg[i]);
      check := Xor(check, msg[i]);
    }
  }

  class MessageLookup {
    var table: map<Key, Layout>

    function Get(key: Key): Option<Layout> reads this {
      if key in table then Some(table[key]) else None
    }

    ghost predicate Valid() reads this {
      forall key :: Get(key) == Find(Formats(), key)
    }

    constructor ()
      ensures Valid()
    {
      table := map[];
      new;
      var formats := Formats();
      assert forall key :: Find(formats[..0], key).None?;
      hide Formats, Find;
      for i := 0 to |formats|
        invariant forall key :: Get(key) == Find(formats[..i], key)
      {
        var l := formats[i];
        NotYetAdded(i);
        AddMessage(l);
        forall key ensures Get(key) == Find(formats[..i + 1], key) {
          FindInMore(formats[..i], l, key);
          assert formats[..i + 1] == formats[..i] + [l];
        }
      }
      assert formats[..|formats|] == formats;
    }

    method AddMessage(l: Layout)
      requires Key(l.opcode, l.length) !in table
      modifies this
      ensures table == old(table)[Key(l.opcode, l.length) := l]
    {
      table := table[Key(l.opcode, l.length) := l];
    }

    /** Creates the message that was received, if its format is known. */
    method Parse(msg: seq<bv8>) returns (r: Parse, instance: Format?)
      requires Valid()
      ensures r == ParseMessage(msg)
      ensures r.Known? <==> instance != null
      ensures r.Known? ==> instance.Valid() && fresh(instance)
      ensures r.Known? ==> instance.layout == r.layout && instance.Values() == r.values
    {
      hide Formats, Find, WellLaid, Covers;
      instance := null;
      if msg == [] { return Failed, null; }
      var found := Get(KeyOf(msg));
      if found.None? { return Unknown, null; }
      var l := found.value;
      FoundIsAFormat(KeyOf(msg));
      FormatsAreWellLaid(l);
      instance := new Format(l);
      var ok := instance.Decode(msg);
      if !ok { return Failed, null; }
      r := Known(l, Picked(l.fields, msg));
    }
  }
}
