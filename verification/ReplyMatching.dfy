/** Requests and replies over the line protocol: whose reply a message is taken for. */
module ReplyMatching {
  import opened Wrappers
  import opened Codec
  import opened LineClient

  // ----- Over all runs: nothing is classified out of thin air -----

  /** What moves the client: a received line, a request that is sent, or a wait that consumes its event. */
  datatype Step = Got(line: string) | Disarm | Begin(hex: string) | TakeSent | ClearReply

  /** A request is about to start: no reply is expected yet. */
  function DisarmReply(st: State): State {
    st.(nextIsReply := false)
  }

  /** A request starts: its echo is expected, and its own SENT line. */
  function BeginSend(st: State, hex: string): State {
    st.(lastSentHex := Some(hex), sentEvent := false)
  }

  function Next(st: State, step: Step): Outcome {
    match step
    case Got(line) => ProcessLine(st, line)
    case Disarm => Outcome(DisarmReply(st), [])
    case Begin(hex) => Outcome(BeginSend(st, hex), [])
    case TakeSent => Outcome(st.(sentEvent := false), [])
    case ClearReply => Outcome(st.(replyEvent := false), [])
  }

  function Run(st: State, steps: seq<Step>): Outcome {
    if steps == [] then Outcome(st, [])
    else
      var before := Run(st, steps[..|steps| - 1]);
      var last := Next(before.state, steps[|steps| - 1]);
      Outcome(last.state, before.deliveries + last.deliveries)
  }

  function CountOf(ds: seq<Delivery>, origin: Origin): nat {
    if ds == [] then 0 else CountOf(ds[..|ds| - 1], origin) + if ds[|ds| - 1].origin == origin then 1 else 0
  }

  predicate IsSentLine(step: Step) {
    step.Got? && InputOf(step.line).Sent?
  }

  function SentLines(steps: seq<Step>): nat {
    if steps == [] then 0 else SentLines(steps[..|steps| - 1]) + if IsSentLine(steps[|steps| - 1]) then 1 else 0
  }

  function Sends(steps: seq<Step>): nat {
    if steps == [] then 0 else Sends(steps[..|steps| - 1]) + if steps[|steps| - 1].Begin? then 1 else 0
  }

  function One(b: bool): nat { if b then 1 else 0 }

  lemma StepIsPaidFor(st: State, step: Step)
    ensures var end := Next(st, step);
            && |end.deliveries| <= 1
            && CountOf(end.deliveries, Reply) + One(end.state.nextIsReply)
                 <= One(IsSentLine(step)) + One(st.nextIsReply)
            && CountOf(end.deliveries, Ours) + One(end.state.lastSentHex.Some?)
                 <= One(step.Begin?) + One(st.lastSentHex.Some?)
  {
    hide InputOf, MessageIn;
    var ds := Next(st, step).deliveries;
    assert |ds| <= 1 && ds[..0] == [];
  }

  lemma {:induction false} CountOfConcat(a: seq<Delivery>, b: seq<Delivery>, origin: Origin)
    ensures CountOf(a + b, origin) == CountOf(a, origin) + CountOf(b, origin)
  {
    if b == [] {
      assert a + b == a;
    } else {
      assert (a + b)[..|a + b| - 1] == a + b[..|b| - 1];
      CountOfConcat(a, b[..|b| - 1], origin);
    }
  }

  /** Every reply uses up a SENT line, and every echo uses up a request. */
  lemma {:induction false} ClassificationsArePaidFor(st: State, steps: seq<Step>)
    ensures var end := Run(st, steps);
            && CountOf(end.deliveries, Reply) + One(end.state.nextIsReply) <= SentLines(steps) + One(st.nextIsReply)
            && CountOf(end.deliveries, Ours) + One(end.state.lastSentHex.Some?)
                 <= Sends(steps) + One(st.lastSentHex.Some?)
  {
    hide InputOf, MessageIn, Next, IsSentLine;
    if steps != [] {
      var before := Run(st, steps[..|steps| - 1]);
      var last := Next(before.state, steps[|steps| - 1]);
      ClassificationsArePaidFor(st, steps[..|steps| - 1]);
      StepIsPaidFor(before.state, steps[|steps| - 1]);
      CountOfConcat(before.deliveries, last.deliveries, Reply);
      CountOfConcat(before.deliveries, last.deliveries, Ours);
    }
  }

  // ----- One request -----

  /** The first message after a SENT line that is not a busy signal. */
  function FirstAnswer(lines: seq<string>, sent: bool): Option<Incoming> {
    if lines == [] then None
    else match InputOf(lines[0])
      case Sent(_) => FirstAnswer(lines[1..], true)
      case Receive(param) =>
        if sent && MessageIn(param).Some? && !MessageIn(param).value.busy then Some(MessageIn(param).value.content)
        else FirstAnswer(lines[1..], sent)
      case Other => FirstAnswer(lines[1..], sent)
  }

  /** The last of the messages that are taken for replies: each is the first answer behind a SENT line. */
  function LastAnswer(lines: seq<string>, sent: bool): Option<Incoming> {
    if lines == [] then None
    else match InputOf(lines[0])
      case Sent(_) => LastAnswer(lines[1..], true)
      case Receive(param) =>
        if sent && MessageIn(param).Some? && !MessageIn(param).value.busy then
          Some(LastAnswer(lines[1..], false).GetOr(MessageIn(param).value.content))
        else LastAnswer(lines[1..], sent)
      case Other => LastAnswer(lines[1..], sent)
  }

  /** Over any lines, the reply kept is the last answer, or what it was before; it is signalled when there was one. */
  lemma {:induction false} ReplyIsLastAnswer(st: State, lines: seq<string>)
    ensures var end, last := ProcessLines(st, lines).state, LastAnswer(lines, st.nextIsReply);
            && end.reply == (if last.Some? then last else st.reply)
            && end.replyEvent == (st.replyEvent || last.Some?)
    decreases |lines|
  {
    hide InputOf, MessageIn;
    if lines != [] {
      ReplyIsLastAnswer(ProcessLine(st, lines[0]).state, lines[1..]);
    }
  }

  function CountSent(lines: seq<string>): nat {
    if lines == [] then 0 else One(InputOf(lines[0]).Sent?) + CountSent(lines[1..])
  }

  /** Once answered, nothing changes the reply until another SENT line comes. */
  lemma {:induction false} AnsweredStays(st: State, lines: seq<string>)
    requires CountSent(lines) == 0 && !st.nextIsReply
    ensures var end := ProcessLines(st, lines).state;
            && end.replyEvent == st.replyEvent && end.reply == st.reply && !end.nextIsReply
            && end.sentEvent == st.sentEvent && end.sentError == st.sentError
    decreases |lines|
  {
    hide InputOf, MessageIn;
    if lines != [] {
      AnsweredStays(ProcessLine(st, lines[0]).state, lines[1..]);
    }
  }

  /** With at most one SENT line to come, the reply is the first answer behind it, and otherwise what it was before. */
  lemma {:induction false} ReplyIsFirstAnswer(st: State, lines: seq<string>)
    requires CountSent(lines) + One(st.nextIsReply) <= 1
    ensures var end, answer := ProcessLines(st, lines).state, FirstAnswer(lines, st.nextIsReply);
            && end.replyEvent == (st.replyEvent || answer.Some?)
            && end.reply == if answer.Some? then answer else st.reply
    decreases |lines|
  {
    hide InputOf, MessageIn;
    if lines != [] {
      var next := ProcessLine(st, lines[0]).state;
      if InputOf(lines[0]).Receive? && st.nextIsReply && !next.nextIsReply {
        AnsweredStays(next, lines[1..]);
      } else {
        ReplyIsFirstAnswer(next, lines[1..]);
      }
    }
  }

  /** A reply is signalled over any lines exactly when some SENT line, or an earlier one, finds an answer. */
  lemma {:induction false} SignalledExactlyWhenAnswered(st: State, lines: seq<string>)
    ensures ProcessLines(st, lines).state.replyEvent <==> st.replyEvent || FirstAnswer(lines, st.nextIsReply).Some?
    decreases |lines|
  {
    hide InputOf, MessageIn;
    if lines != [] {
      var next := ProcessLine(st, lines[0]).state;
      SignalledExactlyWhenAnswered(next, lines[1..]);
    }
  }

  lemma {:induction false} ProcessedInTwoParts(st: State, a: seq<string>, b: seq<string>)
    ensures ProcessLines(st, a + b).state == ProcessLines(ProcessLines(st, a).state, b).state
    ensures CountSent(a + b) == CountSent(a) + CountSent(b)
    decreases |a|
  {
    hide InputOf, ProcessLine;
    if a == [] {
      assert a + b == b;
    } else {
      assert (a + b)[1..] == a[1..] + b;
      ProcessedInTwoParts(ProcessLine(st, a[0]).state, a[1..], b);
    }
  }

  datatype SendResult = Success | ReplyTimeout | SocketError | SentError | SentTimeout | UnexpectedReply

  /**
   What the sending side sees: lines received between the reset of the reply and the request, within the
   preparation of the request, until SENT, and until the reply; and whether the connection is up.
   */
  datatype Timing = Timing(gap: seq<string>, between: seq<string>, up: bool, during: seq<string>, later: seq<string>)

  /** A request is sent; the lines in between and during are received before its sender goes on. */
  function BlockingSend(st: State, hex: string, t: Timing): (r: (State, SendResult))
    ensures ReplyPresent(st) ==> ReplyPresent(r.0)
  {
    var begun := BeginSend(ProcessLines(DisarmReply(st), t.between).state, hex);
    if !t.up then (begun, SocketError)
    else
      var heard := ProcessLines(begun, t.during).state;
      if !heard.sentEvent then (heard, SentTimeout)
      else (heard.(sentEvent := false), if heard.sentError then SentError else Success)
  }

  /** What the last SENT line says. */
  function LastSent(lines: seq<string>): Option<string> {
    if lines == [] then None
    else if InputOf(lines[|lines| - 1]).Sent? then Some(InputOf(lines[|lines| - 1]).param)
    else LastSent(lines[..|lines| - 1])
  }

  lemma {:induction false} SentOfLines(st: State, lines: seq<string>)
    ensures var end, sent := ProcessLines(st, lines).state, LastSent(lines);
            && end.sentEvent == (st.sentEvent || sent.Some?)
            && end.sentError == if sent.Some? then !("OK" <= sent.value) else st.sentError
  {
    hide InputOf, MessageIn;
    if lines != [] {
      var less, line := lines[..|lines| - 1], lines[|lines| - 1];
      SentOfLines(st, less);
      ProcessedInTwoParts(st, less, [line]);
      assert less + [line] == lines && [line][1..] == [];
    }
  }

  /** The request went out and the last SENT line until then says so. */
  predicate Accepted(t: Timing) {
    t.up && LastSent(t.during).Some? && "OK" <= LastSent(t.during).value
  }

  /** How sending ends, for any lines whatsoever: the connection and the last SENT line decide. */
  lemma SendingEnds(st: State, hex: string, t: Timing)
    ensures var result, sent := BlockingSend(st, hex, t).1, LastSent(t.during);
            && (result == SocketError <==> !t.up)
            && (result == SentTimeout <==> t.up && sent.None?)
            && (result == SentError <==> t.up && sent.Some? && !("OK" <= sent.value))
            && (result == Success <==> Accepted(t))
  {
    hide LastSent;
    SentOfLines(BeginSend(ProcessLines(DisarmReply(st), t.between).state, hex), t.during);
  }

  datatype Exchange = Exchange(state: State, result: SendResult, reply: Option<Incoming>)

  function SendAndWaitReply(st: State, hex: string, expected: Incoming -> bool, t: Timing): Exchange
  {
    var ready := ProcessLines(st.(replyEvent := false), t.gap).state;
    var (sent, result) := BlockingSend(ready, hex, t);
    if result != Success then Exchange(sent, result, None)
    else
      var heard := ProcessLines(sent, t.later).state;
      if !heard.replyEvent then Exchange(heard, ReplyTimeout, None)
      else if !expected(heard.reply.value) then Exchange(heard.(replyEvent := false), UnexpectedReply, None)
      else Exchange(heard.(replyEvent := false), Success, heard.reply)
  }

  /** A request that is not accepted returns how it failed, and no reply. */
  lemma RefusedHasNoReply(st: State, hex: string, expected: Incoming -> bool, t: Timing)
    requires !Accepted(t)
    ensures var r, sent := SendAndWaitReply(st, hex, expected, t), LastSent(t.during);
            && r.reply == None
            && r.result == if !t.up then SocketError else if sent.None? then SentTimeout else SentError
  {
    hide LastSent;
    SendingEnds(ProcessLines(st.(replyEvent := false), t.gap).state, hex, t);
  }

  /**
   What an accepted request returns when its own SENT line is the only one behind it: the first message behind that
   line that is no busy signal, if there is one. Without one it times out, unless a message received
   before the request was still taken for a reply; then the last such message counts as its reply.
   */
  lemma ExchangeReturnsFirstAnswer(st: State, hex: string, expected: Incoming -> bool, t: Timing)
    requires CountSent(t.between) == 0 && CountSent(t.during + t.later) <= 1
    requires Accepted(t)
    ensures var r := SendAndWaitReply(st, hex, expected, t);
            var answer, stale := FirstAnswer(t.during + t.later, false), LastAnswer(t.gap, st.nextIsReply);
            var given := if answer.Some? then answer else stale;
            && (given.None? ==> r.result == ReplyTimeout && r.reply == None)
            && (given.Some? && expected(given.value) ==> r.result == Success && r.reply == given)
            && (given.Some? && !expected(given.value) ==> r.result == UnexpectedReply && r.reply == None)
  {
    hide InputOf, MessageIn, ProcessLine, Accepted;
    var ready := ProcessLines(st.(replyEvent := false), t.gap).state;
    SendingEnds(ready, hex, t);
    var prepared := ProcessLines(DisarmReply(ready), t.between).state;
    AnsweredStays(DisarmReply(ready), t.between);
    var begun := BeginSend(prepared, hex);
    var heard := ProcessLines(begun, t.during).state;
    ReplyIsLastAnswer(st.(replyEvent := false), t.gap);
    ProcessedInTwoParts(begun, t.during, t.later);
    ReplyIsFirstAnswer(begun, t.during + t.later);
    ConsumingChangesNothing(heard, t.later);
  }

  /** Consuming the event of a SENT line leaves the matching of replies alone. */
  lemma {:induction false} ConsumingChangesNothing(st: State, lines: seq<string>)
    ensures var a, b := ProcessLines(st, lines).state, ProcessLines(st.(sentEvent := false), lines).state;
            a.replyEvent == b.replyEvent && a.reply == b.reply
    decreases |lines|
  {
    hide InputOf, MessageIn;
    if lines != [] {
      var a, b := ProcessLine(st, lines[0]).state, ProcessLine(st.(sentEvent := false), lines[0]).state;
      if a == b { return; }
      assert b == a.(sentEvent := false);
      ConsumingChangesNothing(a, lines[1..]);
    }
  }

  /** The request is safe from earlier messages when none was awaited and no SENT line slips in before it. */
  lemma QuietGap(st: State, gap: seq<string>)
    requires CountSent(gap) == 0 && !st.nextIsReply
    ensures LastAnswer(gap, st.nextIsReply).None?
  {
    AnsweredStays(st.(replyEvent := false), gap);
    ReplyIsLastAnswer(st.(replyEvent := false), gap);
  }

  lemma SentOkIsRead()
    ensures InputOf("SENT OK") == Sent("OK")
  {
    var line := "SENT" + (" " + "OK");
    FirstSpace("SENT", "OK");
    assert line == "SENT OK" && line[..4] == "SENT" && line[5..] == "OK";
  }

  /** It is not safe otherwise: any known message that arrives just before the request is returned as its reply. */
  lemma StaleReplyIsReturned(st: State, hex: string, expected: Incoming -> bool, l: Layout, vs: seq<bv8>)
    requires st.nextIsReply && Sound(Heard(l, vs)) && expected(Typed(l, vs))
    ensures var t := Timing([TextOf(Heard(l, vs))], [], true, ["SENT OK"], []);
            && SendAndWaitReply(st, hex, expected, t).result == Success
            && SendAndWaitReply(st, hex, expected, t).reply == Some(Typed(l, vs))
  {
    MessageLine(l, vs);
    SentOkIsRead();
    hide InputOf, MessageIn, TextOf, Sound;
    var t := Timing([TextOf(Heard(l, vs))], [], true, ["SENT OK"], []);
    var armed := st.(replyEvent := false);
    var heard := ProcessLine(armed, t.gap[0]).state;
    assert t.gap[1..] == [] && t.during[1..] == [];
    assert ProcessLines(armed, t.gap).state == heard;
    var begun := BeginSend(DisarmReply(heard), hex);
    assert ProcessLines(begun, t.during).state == OnSent(begun, "OK");
  }

  /** Our own message comes back among these lines. */
  predicate Echoed(lines: seq<string>, hex: string) {
    lines != [] && ((MessageIn(hex).Some? && InputOf(lines[0]) == Receive(hex)) || Echoed(lines[1..], hex))
  }

  /** Before its SENT line, a request's echo is recognised, once, and nothing is taken for a reply. */
  lemma {:induction false} EchoIsRecognised(st: State, lines: seq<string>)
    requires CountSent(lines) == 0 && !st.nextIsReply
    ensures var ds := ProcessLines(st, lines).deliveries;
            && CountOf(ds, Reply) == 0
            && CountOf(ds, Ours) == One(st.lastSentHex.Some? && Echoed(lines, st.lastSentHex.value))
    decreases |lines|
  {
    hide InputOf, MessageIn;
    if lines != [] {
      var first := ProcessLine(st, lines[0]);
      EchoIsRecognised(first.state, lines[1..]);
      CountOfConcat(first.deliveries, ProcessLines(first.state, lines[1..]).deliveries, Reply);
      CountOfConcat(first.deliveries, ProcessLines(first.state, lines[1..]).deliveries, Ours);
      assert |first.deliveries| <= 1 && first.deliveries[..0] == [];
    }
  }
}
