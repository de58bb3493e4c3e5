/** Bytes as hexadecimal text, as the line protocol carries them. */
module HexText {
  import opened Wrappers

  /** The receive buffer's size, in bytes. */
  const BUFFER := 1000

  function HexValue(c: char): Option<bv8> {
    if '0' <= c <= '9' then Some((c as int - '0' as int) as bv8)
    else if 'a' <= c <= 'f' then Some((c as int - 'a' as int + 10) as bv8)
    else if 'A' <= c <= 'F' then Some((c as int - 'A' as int + 10) as bv8)
    else None
  }

  function Digit(d: bv8): char
    requires d < 16
  {
    "0123456789ABCDEF"[d as int]
  }

  function High(b: bv8): (d: bv8) ensures d < 16 { b >> 4 }

  function Low(b: bv8): (d: bv8) ensures d < 16 { b & 0x0F }

  function Join(high: bv8, low: bv8): bv8 { (high << 4) | low }

  lemma NibblesJoin(b: bv8)
    ensures Join(High(b), Low(b)) == b
  {
  }

  lemma DigitSurvives(d: bv8)
    requires d < 16
    ensures HexValue(Digit(d)) == Some(d) && Digit(d) != ' '
    ensures ' ' <= Digit(d) <= 'F'
  {
    var n := d as int;
    assert n as bv8 == d;
  }

  /** What each character counts for; 48, 65 and 97 are '0', 'A' and 'a'. */
  lemma DigitValues(c: char)
    ensures HexValue(c).Some? <==> '0' <= c <= '9' || 'A' <= c <= 'F' || 'a' <= c <= 'f'
    ensures '0' <= c <= '9' ==> HexValue(c).value as int == c as int - 48
    ensures 'A' <= c <= 'F' ==> HexValue(c).value as int == c as int - 65 + 10
    ensures 'a' <= c <= 'f' ==> HexValue(c).value as int == c as int - 97 + 10
  {
    if '0' <= c <= '9' {
      DecimalValue(c);
    } else if 'A' <= c <= 'F' {
      CapitalValue(c);
    } else if 'a' <= c <= 'f' {
      SmallValue(c);
    }
    hide HexValue;
  }

  lemma DecimalValue(c: char)
    requires '0' <= c <= '9'
    ensures HexValue(c).Some? && HexValue(c).value as int == c as int - 48
  {
    assert (c as int - 48) % 256 == c as int - 48;
  }

  lemma CapitalValue(c: char)
    requires 'A' <= c <= 'F'
    ensures HexValue(c).Some? && HexValue(c).value as int == c as int - 55
  {
    assert (c as int - 55) % 256 == c as int - 55;
  }

  lemma SmallValue(c: char)
    requires 'a' <= c <= 'f'
    ensures HexValue(c).Some? && HexValue(c).value as int == c as int - 87
  {
    assert (c as int - 87) % 256 == c as int - 87;
  }

  lemma NibblesOfByte(b: bv8)
    ensures High(b) as int == b as int / 16 && Low(b) as int == b as int % 16
    ensures forall h, l :: h < 16 && l < 16 ==> Join(h, l) as int == h as int * 16 + l as int
  {
  }

  /** Every byte is two digits, its sixteenths and the rest, in capitals, with a space before the next byte. */
  lemma {:induction false} HexOfBytes(bytes: seq<bv8>, k: nat)
    requires k < |bytes|
    ensures var text := ToHex(bytes);
            && |text| == 3 * |bytes| - 1
            && text[3 * k] == "0123456789ABCDEF"[bytes[k] as int / 16]
            && text[3 * k + 1] == "0123456789ABCDEF"[bytes[k] as int % 16]
            && (k + 1 < |bytes| ==> text[3 * k + 2] == ' ')
  {
    HexIsShort(bytes);
    NibblesOfByte(bytes[0]);
    if k > 0 { HexOfBytes(bytes[1..], k - 1); }
  }

  /** Small and capital letters are the same digits. */
  lemma CaseMeansNothing(c: char)
    requires 'a' <= c <= 'f'
    ensures 'A' <= (c as int - 32) as char <= 'F' && HexValue(c) == HexValue((c as int - 32) as char)
  {
  }

  /** Two digits a byte, with a space between bytes. */
  function ToHex(bytes: seq<bv8>): string {
    if bytes == [] then ""
    else [Digit(High(bytes[0])), Digit(Low(bytes[0]))] + (if |bytes| == 1 then "" else " " + ToHex(bytes[1..]))
  }

  /** Reads digits in pairs, whatever the spaces; a last digit without a partner is dropped. */
  function Unhex(text: string, high: Option<bv8>, done: seq<bv8>): Option<seq<bv8>> {
    if text == "" then Some(done)
    else if text[0] == ' ' then Unhex(text[1..], high, done)
    else if HexValue(text[0]).None? || |done| >= BUFFER then None
    else
      var v := HexValue(text[0]).value;
      match high
      case None => Unhex(text[1..], Some(v), done)
      case Some(h) => Unhex(text[1..], None, done + [Join(h, v)])
  }

  /** Bytes written as text read back as the same bytes. */
  lemma {:induction false} HexRoundTrip(bytes: seq<bv8>, done: seq<bv8>)
    requires |done| + |bytes| <= BUFFER
    ensures Unhex(ToHex(bytes), None, done) == Some(done + bytes)
  {
    hide High, Low, Join, Digit, HexValue;
    if bytes == [] {
      assert done + bytes == done;
    } else {
      var b, rest, text := bytes[0], bytes[1..], ToHex(bytes);
      var tail := text[2..];
      DigitSurvives(High(b));
      DigitSurvives(Low(b));
      NibblesJoin(b);
      assert text[0] == Digit(High(b)) && text[1..][0] == Digit(Low(b)) && text[1..][1..] == tail;
      assert Unhex(text, None, done) == Unhex(text[1..], Some(High(b)), done);
      assert Unhex(text, None, done) == Unhex(tail, None, done + [b]);
      HexRoundTrip(rest, done + [b]);
      assert done + [b] + rest == done + bytes;
      if rest != [] {
        assert tail[1..] == ToHex(rest) && tail[0] == ' ';
      } else {
        assert tail == "" == ToHex(rest);
      }
    }
  }

  predicate AllDigits(text: string) {
    forall i :: 0 <= i < |text| ==> HexValue(text[i]).Some?
  }

  /** The bytes of two digits each; a last digit without a partner counts for nothing. */
  function Pairs(text: string): seq<bv8>
    requires AllDigits(text)
  {
    if |text| < 2 then [] else [Join(HexValue(text[0]).value, HexValue(text[1]).value)] + Pairs(text[2..])
  }

  /** A text without spaces is read exactly when it is all digits and no more than 2000 of them. */
  lemma DigitsAreRead(text: string)
    requires ' ' !in text
    ensures Unhex(text, None, []) == if AllDigits(text) && |text| <= 2000 then Some(Pairs(text)) else None
  {
    DigitsAreReadOn(text, []);
    if AllDigits(text) { assert [] + Pairs(text) == Pairs(text); }
  }

  lemma {:induction false} DigitsAreReadOn(text: string, done: seq<bv8>)
    requires ' ' !in text && |done| <= 1000
    ensures Unhex(text, None, done)
         == if AllDigits(text) && 2 * |done| + |text| <= 2000 then Some(done + Pairs(text)) else None
  {
    hide HexValue, Join;
    if |text| == 0 {
      assert done + [] == done;
    } else if |text| == 1 {
      assert text[1..] == "" && done + [] == done;
    } else if HexValue(text[0]).Some? && HexValue(text[1]).Some? && |done| < 1000 {
      var b := Join(HexValue(text[0]).value, HexValue(text[1]).value);
      assert text[1..][0] == text[1] && text[1..][1..] == text[2..];
      assert Unhex(text, None, done) == Unhex(text[2..], None, done + [b]);
      DigitsAreReadOn(text[2..], done + [b]);
      if AllDigits(text[2..]) {
        assert forall i :: 2 <= i < |text| ==> text[i] == text[2..][i - 2];
        assert done + [b] + Pairs(text[2..]) == done + ([b] + Pairs(text[2..]));
      }
    } else {
      assert text[1..][0] == text[1];
    }
  }

  function NoSpaces(text: string): string {
    if text == "" then "" else (if text[0] == ' ' then "" else [text[0]]) + NoSpaces(text[1..])
  }

  /** Spaces mean nothing, wherever they stand. */
  lemma {:induction false} SpacesMeanNothing(text: string, high: Option<bv8>, done: seq<bv8>)
    ensures Unhex(text, high, done) == Unhex(NoSpaces(text), high, done)
  {
    hide HexValue, Join;
    if text != "" {
      var c, rest := text[0], text[1..];
      if c == ' ' {
        assert NoSpaces(text) == NoSpaces(rest);
        SpacesMeanNothing(rest, high, done);
      } else {
        assert NoSpaces(text)[0] == c && NoSpaces(text)[1..] == NoSpaces(rest);
        if HexValue(c).Some? {
          match high {
            case None => SpacesMeanNothing(rest, Some(HexValue(c).value), done);
            case Some(h) => SpacesMeanNothing(rest, None, done + [Join(h, HexValue(c).value)]);
          }
        }
      }
    }
  }

  lemma {:induction false} HexIsShort(bytes: seq<bv8>)
    ensures |ToHex(bytes)| == if bytes == [] then 0 else 3 * |bytes| - 1
    ensures forall i :: 0 <= i < |ToHex(bytes)| ==> ' ' <= ToHex(bytes)[i] <= 'F'
  {
    if bytes != [] {
      DigitSurvives(High(bytes[0]));
      DigitSurvives(Low(bytes[0]));
      HexIsShort(bytes[1..]);
    }
  }
}
