/** Cutting the received byte stream into lines. */
module Lines {
  import opened HexText

  predicate IsBreak(b: bv8) {
    b == 13 || b == 10
  }

  /** ASCII, with a question mark for every byte beyond it. */
  function Letter(b: bv8): char {
    if b < 128 then (b as int) as char else '?'
  }

  function GetString(bytes: seq<bv8>): string {
    seq(|bytes|, i requires 0 <= i < |bytes| => Letter(bytes[i]))
  }

  /** A line and what follows it, the end of the stream, or a line that does not fit the buffer. */
  datatype Received = Line(text: string, rest: seq<bv8>) | Eof | Overflow(rest: seq<bv8>)

  /** Reads on with the buffer filled so far; a break after nothing is skipped. */
  function ReceiveLine(s: seq<bv8>, fill: seq<bv8>): (r: Received)
    ensures !r.Eof? ==> |r.rest| < |s|
  {
    if s == [] then Eof
    else if IsBreak(s[0]) then
      if fill == [] then ReceiveLine(s[1..], []) else Line(GetString(fill), s[1..])
    else if |fill| >= BUFFER then Overflow(s[1..])
    else ReceiveLine(s[1..], fill + [s[0]])
  }

  /** The lines received until the stream ends or a line overflows the buffer. */
  function AllLines(s: seq<bv8>): seq<string>
    decreases |s|
  {
    match ReceiveLine(s, [])
    case Line(text, rest) => [text] + AllLines(rest)
    case _ => []
  }

  predicate NoBreaks(t: seq<bv8>) {
    forall i :: 0 <= i < |t| ==> !IsBreak(t[i])
  }

  predicate OnlyBreaks(t: seq<bv8>) {
    forall i :: 0 <= i < |t| ==> IsBreak(t[i])
  }

  lemma {:induction false} BreaksAreSkipped(breaks: seq<bv8>, s: seq<bv8>)
    requires OnlyBreaks(breaks)
    ensures ReceiveLine(breaks + s, []) == ReceiveLine(s, [])
  {
    if breaks == [] {
      assert breaks + s == s;
    } else {
      assert (breaks + s)[1..] == breaks[1..] + s;
      BreaksAreSkipped(breaks[1..], s);
    }
  }

  lemma {:induction false} BytesAreCollected(t: seq<bv8>, s: seq<bv8>, fill: seq<bv8>)
    requires NoBreaks(t) && |fill| + |t| <= BUFFER
    ensures ReceiveLine(t + s, fill) == ReceiveLine(s, fill + t)
  {
    if t == [] {
      assert t + s == s && fill + t == fill;
    } else {
      assert (t + s)[1..] == t[1..] + s && fill + [t[0]] + t[1..] == fill + t;
      BytesAreCollected(t[1..], s, fill + [t[0]]);
    }
  }

  /** A line comes through exactly when it has at most 1000 bytes; otherwise it is lost with all that was collected. */
  lemma LineFitsOrOverflows(lead: seq<bv8>, t: seq<bv8>, b: bv8, s: seq<bv8>)
    requires OnlyBreaks(lead) && NoBreaks(t) && t != [] && IsBreak(b)
    ensures ReceiveLine(lead + (t + ([b] + s)), [])
         == if |t| <= 1000 then Line(GetString(t), s) else Overflow(t[1001..] + ([b] + s))
  {
    hide IsBreak;
    var tail := [b] + s;
    BreaksAreSkipped(lead, t + tail);
    if |t| <= BUFFER {
      BytesAreCollected(t, tail, []);
      assert [] + t == t && tail[1..] == s && tail[0] == b;
    } else {
      LongLineOverflows(t, tail);
    }
  }

  lemma LongLineOverflows(t: seq<bv8>, s: seq<bv8>)
    requires NoBreaks(t) && |t| > BUFFER
    ensures ReceiveLine(t + s, []) == Overflow(t[BUFFER + 1..] + s)
  {
    hide IsBreak;
    var head, rest := t[..BUFFER], t[BUFFER..] + s;
    assert t + s == head + rest;
    assert rest[0] == t[BUFFER] && rest[1..] == t[BUFFER + 1..] + s;
    BytesAreCollected(head, rest, []);
    assert [] + head == head;
  }

  // ----- Text on the wire -----

  /** A text that can stand on a line of its own. */
  predicate IsLine(text: string) {
    0 < |text| <= BUFFER && forall i :: 0 <= i < |text| ==> IsPlain(text[i])
  }

  predicate IsPlain(c: char) {
    c as int < 128 && c != '\r' && c != '\n'
  }

  function Byte(c: char): bv8
    requires c as int < 128
  {
    (c as int) as bv8
  }

  function Bytes(text: string): seq<bv8>
    requires IsLine(text)
  {
    seq(|text|, i requires 0 <= i < |text| => Byte(text[i]))
  }

  lemma LetterOfByte(c: char)
    requires IsPlain(c)
    ensures Letter(Byte(c)) == c && !IsBreak(Byte(c))
  {
    ByteKeepsCode(c);
    SmallBytes(Byte(c));
    hide Byte, IsBreak;
  }

  lemma ByteKeepsCode(c: char)
    requires c as int < 128
    ensures Byte(c) as int == c as int
  {
    assert c as int % 256 == c as int;
  }

  lemma SmallBytes(b: bv8)
    ensures b < 128 <==> b as int < 128
    ensures IsBreak(b) <==> b as int == 13 || b as int == 10
  {
  }

  lemma TextOfBytes(text: string)
    requires IsLine(text)
    ensures GetString(Bytes(text)) == text && NoBreaks(Bytes(text)) && |Bytes(text)| == |text|
  {
    hide Byte, Letter, IsBreak, IsPlain;
    forall i | 0 <= i < |text| ensures Letter(Bytes(text)[i]) == text[i] && !IsBreak(Bytes(text)[i]) {
      LetterOfByte(text[i]);
    }
  }

  /** A line and the line ends behind it: CR, LF, CR LF, and any blank lines. */
  datatype Piece = Piece(text: string, breaks: seq<bv8>)

  predicate Proper(p: Piece) {
    IsLine(p.text) && p.breaks != [] && OnlyBreaks(p.breaks)
  }

  function Rendered(ps: seq<Piece>): seq<bv8>
    requires forall i :: 0 <= i < |ps| ==> Proper(ps[i])
  {
    if ps == [] then []
    else
      assert Proper(ps[0]);
      Bytes(ps[0].text) + (ps[0].breaks + Rendered(ps[1..]))
  }

  function Texts(ps: seq<Piece>): seq<string> {
    seq(|ps|, i requires 0 <= i < |ps| => ps[i].text)
  }

  /** Whatever the line ends and blank lines between them, the lines written are the lines received. */
  lemma {:induction false} LinesComeThrough(lead: seq<bv8>, ps: seq<Piece>)
    requires OnlyBreaks(lead) && forall i :: 0 <= i < |ps| ==> Proper(ps[i])
    ensures AllLines(lead + Rendered(ps)) == Texts(ps)
    decreases |ps|
  {
    hide IsBreak;
    if ps == [] {
      BreaksAreSkipped(lead, []);
      assert Texts(ps) == [];
    } else {
      var p, rest := ps[0], Rendered(ps[1..]);
      TextOfBytes(p.text);
      assert p.breaks + rest == [p.breaks[0]] + (p.breaks[1..] + rest);
      assert Proper(p);
      LineFitsOrOverflows(lead, Bytes(p.text), p.breaks[0], p.breaks[1..] + rest);
      LinesComeThrough(p.breaks[1..], ps[1..]);
      assert Texts(ps) == [p.text] + Texts(ps[1..]);
    }
  }

  lemma ByteAsInt(b: bv8)
    ensures 0 <= b as int < 256 && (b as int) as bv8 == b
    ensures IsBreak(b) <==> b as int == 13 || b as int == 10
  {
  }

  /** Two lines as most servers end them: by CR LF, by LF or by CR. */
  lemma CrLfLines(a: string, b: string)
    requires IsLine(a) && IsLine(b)
    ensures AllLines(Bytes(a) + ([13, 10] + (Bytes(b) + [13, 10]))) == [a, b]
    ensures AllLines(Bytes(a) + ([10] + (Bytes(b) + [10]))) == [a, b]
    ensures AllLines(Bytes(a) + ([13] + (Bytes(b) + [13]))) == [a, b]
  {
    TwoLines(a, b, [13, 10]);
    TwoLines(a, b, [10]);
    TwoLines(a, b, [13]);
  }

  lemma TwoLines(a: string, b: string, ends: seq<bv8>)
    requires IsLine(a) && IsLine(b) && ends != [] && OnlyBreaks(ends)
    ensures AllLines(Bytes(a) + (ends + (Bytes(b) + ends))) == [a, b]
  {
    hide IsBreak, IsLine, AllLines, Bytes;
    var ps := [Piece(a, ends), Piece(b, ends)];
    assert ps[1..] == [ps[1]] && [ps[1]][1..] == [];
    assert Rendered([]) == [];
    assert Rendered([ps[1]]) == Bytes(b) + (ends + []) && ends + [] == ends;
    LinesComeThrough([], ps);
    assert [] + Rendered(ps) == Rendered(ps);
    assert Texts(ps) == [a, b];
  }

  /** Bytes below 128 are their ASCII characters; any other is a question mark. */
  lemma LettersOf(t: seq<bv8>, i: nat)
    requires i < |t|
    ensures t[i] as int < 128 ==> GetString(t)[i] as int == t[i] as int
    ensures t[i] as int >= 128 ==> GetString(t)[i] == '?'
  {
    SmallBytes(t[i]);
    hide IsBreak;
  }

  // ----- The objects -----

  /** The receiving end of the connection: bytes that are still to come before it is closed. */
  class NetworkStream {
    var pending: seq<bv8>

    method ReadByte() returns (c: int)
      modifies this
      ensures if old(pending) == [] then c == -1 && pending == []
              else c == old(pending)[0] as int && pending == old(pending)[1..]
    {
      if pending == [] { return -1; }
      c, pending := pending[0] as int, pending[1..];
    }
  }

  class LineReader {
    const buffer: array<bv8>
    const stream: NetworkStream

    ghost predicate Valid() {
      buffer.Length == BUFFER
    }

    constructor (stream: NetworkStream)
      ensures Valid() && this.stream == stream && fresh(buffer)
    {
      this.stream := stream;
      buffer := new bv8[BUFFER](_ => 0);
    }

    /** Fills the buffer up to the end of a line that is not empty. */
    method ReceiveLineIntoBuffer() returns (r: Received)
      requires Valid()
      modifies stream, buffer
      ensures r == ReceiveLine(old(stream.pending), [])
      ensures stream.pending == if r.Eof? then [] else r.rest
    {
      var bufferFill := 0;
      ghost var goal := ReceiveLine(stream.pending, []);
      while true
        invariant 0 <= bufferFill <= BUFFER
        invariant ReceiveLine(stream.pending, buffer[..bufferFill]) == goal
        decreases |stream.pending|
      {
        ghost var s, fill := stream.pending, buffer[..bufferFill];
        var c := stream.ReadByte();
        if s != [] { ByteAsInt(s[0]); }
        if c == -1 {
          return Eof;
        } else if c == 13 || c == 10 {
          if bufferFill == 0 { continue; }
          return Line(GetString(buffer[..bufferFill]), stream.pending);
        } else if bufferFill >= buffer.Length {
          return Overflow(stream.pending);
        } else {
          buffer[bufferFill] := c as bv8;
          bufferFill := bufferFill + 1;
          assert buffer[..bufferFill] == fill + [s[0]];
        }
      }
    }
  }
}
