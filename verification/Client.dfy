/** The client object: the receiving thread's methods, and the two sending calls with what is received meanwhile. */
module Client {
  import opened Wrappers
  import opened HexText
  import opened Lines
  import opened Codec
  import opened LineClient
  import opened ReplyMatching

  lemma ProcessedOneMore(st: State, lines: seq<string>, line: string)
    ensures ProcessLines(st, lines + [line]).state == ProcessLine(ProcessLines(st, lines).state, line).state
    ensures ProcessLines(st, lines + [line]).deliveries
         == ProcessLines(st, lines).deliveries + ProcessLine(ProcessLines(st, lines).state, line).deliveries
    decreases |lines|
  {
    hide ProcessLine;
    if lines == [] {
      assert (lines + [line])[1..] == [];
    } else {
      assert (lines + [line])[1..] == lines[1..] + [line];
      ProcessedOneMore(ProcessLine(st, lines[0]).state, lines[1..], line);
    }
  }

  lemma NothingProcessed(st: State)
    ensures ProcessLines(st, []) == Outcome(st, [])
  {
  }

  class LoconetClient {
    const reader: LineReader
    const messageLookup: MessageLookup
    var nextReceiveIsReply: bool
    var lastSentHex: Option<string>
    var sentEvent: bool
    var sentError: bool
    var replyEvent: bool
    var reply: Option<Incoming>
    /** What the listeners were told. */
    ghost var told: seq<Delivery>

    ghost function Abs(): State reads this {
      State(nextReceiveIsReply, lastSentHex, sentEvent, sentError, replyEvent, reply)
    }

    ghost predicate Valid() reads this, messageLookup {
      reader.Valid() && messageLookup.Valid()
    }

    constructor (stream: NetworkStream)
      ensures Valid() && Abs() == State(false, None, false, false, false, None) && told == []
      ensures reader.stream == stream && fresh(reader.buffer)
    {
      reader := new LineReader(stream);
      messageLookup := new MessageLookup();
      nextReceiveIsReply, lastSentHex := false, None;
      sentEvent, sentError, replyEvent, reply := false, false, false, None;
      told := [];
    }

    /** The bytes in a hex text, or nothing where the source raises an exception. Uses the line buffer again. */
    method BytesOf(param: string) returns (msg: Option<seq<bv8>>)
      requires Valid()
      modifies reader.buffer
      ensures msg == Unhex(param, None, [])
    {
      hide HexValue;
      var buffer := reader.buffer;
      var i, first := 0, true;
      ghost var high: bv8 := 0;
      ghost var goal := Unhex(param, None, []);
      for k := 0 to |param|
        invariant 0 <= i <= BUFFER && (!first ==> i < BUFFER && buffer[i] == high << 4)
        invariant Unhex(param[k..], if first then None else Some(high), buffer[..i]) == goal
      {
        var c := param[k];
        ghost var done := buffer[..i];
        if c == ' ' { continue; }
        if HexValue(c).None? || i >= buffer.Length { return None; }
        var bin := HexValue(c).value;
        if first {
          buffer[i] := bin << 4;
          high := bin;
          assert buffer[..i] == done;
        } else {
          buffer[i] := buffer[i] | bin;
          i := i + 1;
          assert buffer[..i] == done + [Join(high, bin)];
        }
        first := !first;
      }
      msg := Some(buffer[..i]);
    }

    /** A message from the net: a reply, our own, or somebody else's. */
    method OnReceive(param: string)
      requires Valid()
      modifies this, reader.buffer
      ensures Valid()
      ensures var o := LineClient.OnReceive(old(Abs()), param); Abs() == o.state && told == old(told) + o.deliveries
    {
      hide Unhex, MessageLookup.Valid;
      var bytes := BytesOf(param);
      if bytes.None? { return; }
      var msg := bytes.value;
      var parsed, _ := messageLookup.Parse(msg);
      if parsed.Failed? || (parsed.Unknown? && |msg| < 2) { return; }
      var content := if parsed.Known? then Typed(parsed.layout, parsed.values) else Untyped(msg);
      var educatedGuess;
      if nextReceiveIsReply && msg[0] != 0x81 {
        nextReceiveIsReply := false;
        reply := Some(content);
        replyEvent := true;
        educatedGuess := Reply;
      } else if lastSentHex == Some(param) {
        educatedGuess := Ours;
        lastSentHex := None;
      } else {
        educatedGuess := FromNet;
      }
      told := told + [Delivery(educatedGuess, content)];
    }

    method OnSent(param: string)
      modifies this
      ensures Abs() == LineClient.OnSent(old(Abs()), param) && told == old(told)
    {
      sentError := !("OK" <= param);
      sentEvent := true;
      nextReceiveIsReply := true;
    }

    method ProcessLine(line: string)
      requires Valid()
      modifies this, reader.buffer
      ensures Valid()
      ensures var o := LineClient.ProcessLine(old(Abs()), line); Abs() == o.state && told == old(told) + o.deliveries
    {
      hide MessageIn, MessageLookup.Valid;
      var space := IndexOfSpace(line);
      if space == |line| { return; }
      var token, param := line[..space], line[space + 1..];
      if token == "RECEIVE" {
        OnReceive(param);
      } else if token == "SENT" {
        OnSent(param);
      }
    }

    /** Receives and processes one line; nothing more comes after the end of the stream or an overflow. */
    method ReceiveOne(ghost st: State, ghost said: seq<Delivery>, ghost done: seq<string>)
      returns (more: bool, ghost line: string)
      requires Valid()
      requires Abs() == ProcessLines(st, done).state && told == said + ProcessLines(st, done).deliveries
      modifies this, reader.buffer, reader.stream
      ensures Valid()
      ensures more ==> AllLines(old(reader.stream.pending)) == [line] + AllLines(reader.stream.pending)
      ensures more ==> |reader.stream.pending| < |old(reader.stream.pending)|
      ensures !more ==> AllLines(old(reader.stream.pending)) == []
      ensures var now := done + if more then [line] else [];
              Abs() == ProcessLines(st, now).state && told == said + ProcessLines(st, now).deliveries
    {
      hide LineClient.ProcessLine, ReceiveLine, MessageLookup.Valid, ProcessLines;
      var r := reader.ReceiveLineIntoBuffer();
      more, line := r.Line?, "";
      if more {
        line := r.text;
        ProcessLine(r.text);
        ProcessedOneMore(st, done, r.text);
      } else {
        assert done + [] == done;
      }
    }

    /** The receiving loop until the connection ends: every line of the stream is processed, in order. */
    method ReceiveUntilEnd()
      requires Valid()
      modifies this, reader.buffer, reader.stream
      ensures Valid()
      ensures var o := ProcessLines(old(Abs()), AllLines(old(reader.stream.pending)));
              Abs() == o.state && told == old(told) + o.deliveries
    {
      hide LineClient.ProcessLine, ProcessLines, ReceiveLine, MessageLookup.Valid, LineReader.Valid, AllLines;
      NothingProcessed(Abs());
      var running := true;
      ghost var st, said, all := Abs(), told, AllLines(reader.stream.pending);
      ghost var done: seq<string> := [];
      ghost var line;
      while running
        invariant Valid()
        invariant Abs() == ProcessLines(st, done).state && told == said + ProcessLines(st, done).deliveries
        invariant all == done + if running then AllLines(reader.stream.pending) else []
        decreases running, |reader.stream.pending|
      {
        running, line := ReceiveOne(st, said, done);
        done := done + if running then [line] else [];
      }
      assert all == done;
    }

    /** The receiving thread processes lines while the caller waits. */
    method Meanwhile(lines: seq<string>)
      requires Valid()
      modifies this, reader.buffer
      ensures Valid()
      ensures var o := ProcessLines(old(Abs()), lines); Abs() == o.state && told == old(told) + o.deliveries
    {
      hide LineClient.ProcessLine, MessageLookup.Valid;
      ghost var st, said := Abs(), told;
      for i := 0 to |lines|
        invariant Valid()
        invariant Abs() == ProcessLines(st, lines[..i]).state && told == said + ProcessLines(st, lines[..i]).deliveries
      {
        ProcessLine(lines[i]);
        ProcessedOneMore(st, lines[..i], lines[i]);
        assert lines[..i + 1] == lines[..i] + [lines[i]];
      }
      assert lines[..|lines|] == lines;
    }

    /** Sends a line and waits for SENT. */
    method BlockingSend(msgHex: string, t: Timing) returns (result: SendResult)
      requires Valid()
      modifies this, reader.buffer
      ensures Valid() && (Abs(), result) == ReplyMatching.BlockingSend(old(Abs()), msgHex, t)
    {
      hide ProcessLines, MessageLookup.Valid;
      nextReceiveIsReply := false;
      Meanwhile(t.between);
      lastSentHex := Some(msgHex);
      sentEvent := false;
      if !t.up { return SocketError; }
      Meanwhile(t.during);
      var sent := sentEvent;
      if !sent { return SentTimeout; }
      sentEvent := false;
      return if sentError then SentError else Success;
    }

    /** Sends a request and waits for its reply. */
    method SendAndWaitReply(msgHex: string, expected: Incoming -> bool, t: Timing)
      returns (result: SendResult, answer: Option<Incoming>)
      requires Valid() && ReplyPresent(Abs())
      modifies this, reader.buffer
      ensures Valid() && ReplyPresent(Abs())
      ensures Exchange(Abs(), result, answer) == ReplyMatching.SendAndWaitReply(old(Abs()), msgHex, expected, t)
    {
      hide ProcessLines, MessageLookup.Valid;
      answer := None;
      replyEvent := false;
      Meanwhile(t.gap);
      result := BlockingSend(msgHex, t);
      if result != Success { return; }
      Meanwhile(t.later);
      var replied := replyEvent;
      if !replied { return ReplyTimeout, None; }
      replyEvent := false;
      if !expected(reply.value) { return UnexpectedReply, None; }
      return Success, reply;
    }
  }
}
