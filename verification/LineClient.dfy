/**
 The client of the line protocol: what a received line does, where a message came from, and how a
 request finds its reply.
 */
module LineClient {
  import opened Wrappers
  import opened HexText
  import opened Lines
  import opened Codec

  datatype Incoming = Typed(layout: Layout, values: seq<bv8>) | Untyped(bytes: seq<bv8>)

  /** What is made of received bytes; a message that fails to parse, or is too short, raises an exception. */
  function IncomingOf(msg: seq<bv8>): Option<Incoming> {
    match ParseMessage(msg)
    case Known(l, vs) => Some(Typed(l, vs))
    case Unknown => if |msg| >= 2 then Some(Untyped(msg)) else None
    case Failed => None
  }

  datatype Message = Message(busy: bool, content: Incoming)

  /** The message in the text of a RECEIVE line. */
  function MessageIn(param: string): Option<Message> {
    match Unhex(param, None, [])
    case None => None
    case Some(msg) =>
      if IncomingOf(msg).None? then None
      else
        assert msg != [];
        Some(Message(msg[0] == 0x81, IncomingOf(msg).value))
  }

  datatype Input = Receive(param: string) | Sent(param: string) | Other

  function IndexOfSpace(line: string): (i: nat)
    ensures i <= |line|
  {
    if line == "" || line[0] == ' ' then 0 else 1 + IndexOfSpace(line[1..])
  }

  /** The line's token, up to the first space; a line without space fails, an unknown token is ignored. */
  function InputOf(line: string): Input {
    var space := IndexOfSpace(line);
    if space == |line| then Other
    else if line[..space] == "RECEIVE" then Receive(line[space + 1..])
    else if line[..space] == "SENT" then Sent(line[space + 1..])
    else Other
  }

  datatype Origin = FromNet | Reply | Ours

  datatype Delivery = Delivery(origin: Origin, content: Incoming)

  datatype State = State(
    nextIsReply: bool, lastSentHex: Option<string>,
    sentEvent: bool, sentError: bool, replyEvent: bool, reply: Option<Incoming>)

  datatype Outcome = Outcome(state: State, deliveries: seq<Delivery>)

  /** A signalled reply is there to be read. */
  predicate ReplyPresent(st: State) {
    st.replyEvent ==> st.reply.Some?
  }

  function OnReceive(st: State, param: string): Outcome {
    match MessageIn(param)
    case None => Outcome(st, [])
    case Some(m) =>
      if st.nextIsReply && !m.busy then
        Outcome(st.(nextIsReply := false, reply := Some(m.content), replyEvent := true), [Delivery(Reply, m.content)])
      else if st.lastSentHex == Some(param) then
        Outcome(st.(lastSentHex := None), [Delivery(Ours, m.content)])
      else
        Outcome(st, [Delivery(FromNet, m.content)])
  }

  function OnSent(st: State, param: string): State {
    st.(sentError := !("OK" <= param), sentEvent := true, nextIsReply := true)
  }

  function ProcessLine(st: State, line: string): Outcome {
    match InputOf(line)
    case Receive(param) => OnReceive(st, param)
    case Sent(param) => Outcome(OnSent(st, param), [])
    case Other => Outcome(st, [])
  }

  function ProcessLines(st: State, lines: seq<string>): (o: Outcome)
    ensures ReplyPresent(st) ==> ReplyPresent(o.state)
    decreases |lines|
  {
    if lines == [] then Outcome(st, [])
    else
      var first := ProcessLine(st, lines[0]);
      var rest := ProcessLines(first.state, lines[1..]);
      Outcome(rest.state, first.deliveries + rest.deliveries)
  }

  // ----- From the wire to the listeners -----

  /** A line of the server: one of the known messages, or anything that is not a message. */
  datatype Item = Heard(layout: Layout, values: seq<bv8>) | Noise(text: string)

  predicate Sound(item: Item) {
    match item
    case Heard(l, vs) => l in Formats() && Fits(l.fields, vs)
    case Noise(text) => IsLine(text) && !InputOf(text).Receive?
  }

  function TextOf(item: Item): string
    requires Sound(item)
  {
    match item
    case Heard(l, vs) =>
      FormatsAreWellLaid(l);
      "RECEIVE " + ToHex(Encoded(l, vs))
    case Noise(text) => text
  }

  function ContentsOf(items: seq<Item>): seq<Incoming> {
    if items == [] then []
    else (if items[0].Heard? then [Typed(items[0].layout, items[0].values)] else []) + ContentsOf(items[1..])
  }

  function ContentsDelivered(ds: seq<Delivery>): seq<Incoming> {
    seq(|ds|, i requires 0 <= i < |ds| => ds[i].content)
  }

  lemma {:induction false} FirstSpace(token: string, rest: string)
    requires ' ' !in token
    ensures IndexOfSpace(token + (" " + rest)) == |token|
  {
    if token != "" {
      assert (token + (" " + rest))[1..] == token[1..] + (" " + rest);
      FirstSpace(token[1..], rest);
    }
  }

  lemma ReceiveLineIsRead(hex: string)
    ensures InputOf("RECEIVE " + hex) == Receive(hex)
  {
    var line := "RECEIVE" + (" " + hex);
    assert line == "RECEIVE " + hex;
    FirstSpace("RECEIVE", hex);
    assert line[..7] == "RECEIVE" && line[8..] == hex;
  }

  /** The token ends at the first space. */
  lemma {:induction false} SpaceIsFirst(line: string)
    ensures IndexOfSpace(line) < |line| ==> line[IndexOfSpace(line)] == ' '
    ensures ' ' !in line[..IndexOfSpace(line)]
  {
    if line != "" && line[0] != ' ' {
      SpaceIsFirst(line[1..]);
      var n := IndexOfSpace(line[1..]);
      assert line[..n + 1] == [line[0]] + line[1..][..n];
    }
  }

  /** Which lines are RECEIVE and SENT lines, and with what text. */
  lemma LinesAreRead(line: string, param: string)
    ensures InputOf(line) == Receive(param) <==> line == "RECEIVE " + param
    ensures InputOf(line) == Sent(param) <==> line == "SENT " + param
  {
    var space := IndexOfSpace(line);
    SpaceIsFirst(line);
    if space < |line| {
      assert line == line[..space] + [' '] + line[space + 1..];
      assert "RECEIVE" + [' '] == "RECEIVE " && "SENT" + [' '] == "SENT ";
    }
    ReceiveLineIsRead(param);
    FirstSpace("SENT", param);
    var sent := "SENT" + (" " + param);
    assert sent == "SENT " + param && sent[..4] == "SENT" && sent[5..] == param;
  }

  lemma TokenIsUpperCase()
    ensures forall i :: 0 <= i < 8 ==> ' ' <= "RECEIVE "[i] <= 'Z'
  {
  }

  lemma HexFitsALine(msg: seq<bv8>)
    requires |msg| <= 127
    ensures IsLine("RECEIVE " + ToHex(msg))
  {
    HexIsShort(msg);
    hide ToHex, IsPlain;
    var word, hex := "RECEIVE ", ToHex(msg);
    TokenIsUpperCase();
    forall i | 0 <= i < |word + hex| ensures IsPlain((word + hex)[i]) {
      UpperCaseIsPlain((word + hex)[i]);
    }
  }

  lemma UpperCaseIsPlain(c: char)
    requires ' ' <= c <= 'Z'
    ensures IsPlain(c)
  {
  }

  lemma HexIsUnderstood(msg: seq<bv8>)
    requires msg != [] && |msg| <= BUFFER && ParseMessage(msg).Known?
    ensures MessageIn(ToHex(msg))
         == Some(Message(msg[0] == 0x81, Typed(ParseMessage(msg).layout, ParseMessage(msg).values)))
  {
    hide ToHex, Unhex, ParseMessage;
    HexRoundTrip(msg, []);
    assert [] + msg == msg;
  }

  /**
   What is made of any bytes on a RECEIVE line: a known message, or the bytes themselves when they are two or
   more; and a busy signal is told by its opcode 0x81 alone.
   */
  lemma BytesAreRead(msg: seq<bv8>)
    requires |msg| <= 1000
    ensures MessageIn(ToHex(msg)).Some? <==> ParseMessage(msg).Known? || (ParseMessage(msg).Unknown? && |msg| >= 2)
    ensures MessageIn(ToHex(msg)).Some? ==>
              && (MessageIn(ToHex(msg)).value.busy <==> msg[0] == 0x81)
              && MessageIn(ToHex(msg)).value.content
                   == (if ParseMessage(msg).Known? then Typed(ParseMessage(msg).layout, ParseMessage(msg).values)
                       else Untyped(msg))
  {
    hide ToHex, Unhex, Find, Formats, Decodes;
    HexRoundTrip(msg, []);
    assert [] + msg == msg;
  }

  lemma NoFormatIsBusy(l: Layout)
    requires l in Formats()
    ensures l.opcode != 0x81
  {
  }

  lemma MessageLine(l: Layout, vs: seq<bv8>)
    requires Sound(Heard(l, vs))
    ensures IsLine(TextOf(Heard(l, vs)))
    ensures InputOf(TextOf(Heard(l, vs))).Receive?
    ensures MessageIn(InputOf(TextOf(Heard(l, vs))).param).Some?
    ensures MessageIn(InputOf(TextOf(Heard(l, vs))).param).value == Message(false, Typed(l, vs))
  {
    FormatsAreWellLaid(l);
    NoFormatIsBusy(l);
    EncodedIsOnTheWire(l, vs);
    var msg := Encoded(l, vs);
    ParseAfterEncode(l, vs);
    assert 0 < |msg| <= 127;
    hide Encoded, ToHex, MessageIn, ParseMessage, IsLine, InputOf, Formats, Fits, WellLaid;
    ReceiveLineIsRead(ToHex(msg));
    HexFitsALine(msg);
    HexIsUnderstood(msg);
  }

  lemma Delivering(a: seq<Delivery>, b: seq<Delivery>)
    ensures ContentsDelivered(a + b) == ContentsDelivered(a) + ContentsDelivered(b) && ContentsDelivered([]) == []
  {
  }

  lemma ItemComesThrough(item: Item, st: State)
    requires Sound(item)
    ensures ContentsDelivered(ProcessLine(st, TextOf(item)).deliveries)
         == if item.Heard? then [Typed(item.layout, item.values)] else []
  {
    if item.Heard? {
      MessageLine(item.layout, item.values);
    }
    hide InputOf, MessageIn, Formats, Fits, ToHex, Encoded, IsLine;
  }

  function TextsOf(items: seq<Item>): seq<string>
    requires forall i :: 0 <= i < |items| ==> Sound(items[i])
  {
    seq(|items|, i requires 0 <= i < |items| => TextOf(items[i]))
  }

  /** Every known message in the stream, and nothing else, reaches the listeners, with its type, values and order,
      whatever the line ends, the blank lines, the other lines in between and the state of the client. */
  lemma {:induction false} MessagesComeThrough(items: seq<Item>, st: State)
    requires forall i :: 0 <= i < |items| ==> Sound(items[i])
    ensures ContentsDelivered(ProcessLines(st, TextsOf(items)).deliveries) == ContentsOf(items)
  {
    hide TextOf, Sound, ProcessLine, ContentsDelivered;
    if items == [] {
      assert ContentsDelivered([]) == [] by { Delivering([], []); }
    } else {
      var lines, rest := TextsOf(items), items[1..];
      assert lines[1..] == TextsOf(rest);
      var first := ProcessLine(st, lines[0]);
      ItemComesThrough(items[0], st);
      MessagesComeThrough(rest, first.state);
      Delivering(first.deliveries, ProcessLines(first.state, lines[1..]).deliveries);
    }
  }

  /** From bytes to listeners: the pieces of a stream that carry these items. */
  lemma StreamComesThrough(lead: seq<bv8>, pieces: seq<Piece>, items: seq<Item>, st: State)
    requires OnlyBreaks(lead) && forall i :: 0 <= i < |pieces| ==> Proper(pieces[i])
    requires forall i :: 0 <= i < |items| ==> Sound(items[i])
    requires Texts(pieces) == TextsOf(items)
    ensures ContentsDelivered(ProcessLines(st, AllLines(lead + Rendered(pieces))).deliveries) == ContentsOf(items)
  {
    LinesComeThrough(lead, pieces);
    MessagesComeThrough(items, st);
  }
}
