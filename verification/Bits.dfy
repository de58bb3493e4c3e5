/** The bits of the slot bytes DIRF and SND, and the speed byte of a slot. */
module Bits {

  /** A byte that fits a LocoNet data byte: the top bit is clear. */
  type Seven = b: bv8 | b <= 127 witness 0

  const DIR: bv8 := 0x20

  predicate Has(b: bv8, mask: bv8) {
    b & mask != 0
  }

  function With(b: bv8, mask: bv8, on: bool): bv8 {
    if on then (b & !mask) | mask else b & !mask
  }

  /** A mask that selects exactly one of the seven usable bits. */
  predicate SingleBit(mask: bv8) {
    mask != 0 && mask & (mask - 1) == 0 && mask <= 0x40
  }

  /** Writing one bit changes that bit only, and never reaches the top bit. */
  lemma BitWriteIsLocal(b: bv8, mask: bv8, on: bool, other: bv8)
    requires SingleBit(mask) && SingleBit(other)
    ensures Has(With(b, mask, on), other) == if mask == other then on else Has(b, other)
    ensures b <= 127 ==> With(b, mask, on) <= 127
  {
    assert mask != other ==> mask & other == 0;
    assert (b & !mask) & other == b & (!mask & other);
  }

  /** Removes the masked bit and sets it again if requested. */
  method Masked(b: bv8, mask: bv8, newValue: bool) returns (r: bv8)
    requires SingleBit(mask)
    ensures r == With(b, mask, newValue)
    ensures b <= 127 ==> r <= 127
  {
    r := b & !mask;
    if newValue {
      r := r | mask;
    }
    BitWriteIsLocal(b, mask, newValue, mask);
  }

  predicate IsDirfFunction(n: int) {
    0 <= n <= 4
  }

  predicate IsSndFunction(n: int) {
    5 <= n <= 8
  }

  /** Mask of F0..F4 in DIRF. */
  function DirfMask(n: int): bv8
    requires IsDirfFunction(n)
  {
    match n
    case 0 => 0x10
    case 1 => 0x01
    case 2 => 0x02
    case 3 => 0x04
    case _ => 0x08
  }

  /** Mask of F5..F8 in SND. */
  function SndMask(n: int): bv8
    requires IsSndFunction(n)
  {
    match n
    case 5 => 0x01
    case 6 => 0x02
    case 7 => 0x04
    case _ => 0x08
  }

  /** State of F0..F8 as a slot stores it. */
  predicate FunctionBit(dirf: bv8, snd: bv8, n: int)
    requires 0 <= n <= 8
  {
    if IsDirfFunction(n) then Has(dirf, DirfMask(n)) else Has(snd, SndMask(n))
  }

  datatype Direction = Reverse | Forward

  function DirectionOf(dirf: bv8): Direction {
    if Has(dirf, DIR) then Reverse else Forward
  }

  function DirfAfter(dirf: bv8, n: int, on: bool): bv8 {
    if IsDirfFunction(n) then With(dirf, DirfMask(n), on) else dirf
  }

  function SndAfter(snd: bv8, n: int, on: bool): bv8 {
    if IsSndFunction(n) then With(snd, SndMask(n), on) else snd
  }

  /** Writing one function changes that function's bit and no other bit of the two bytes. */
  lemma FunctionWriteIsLocal(dirf: bv8, snd: bv8, n: int, on: bool, m: int)
    requires 0 <= m <= 8
    ensures FunctionBit(DirfAfter(dirf, n, on), SndAfter(snd, n, on), m)
         == if m == n then on else FunctionBit(dirf, snd, m)
    ensures DirectionOf(DirfAfter(dirf, n, on)) == DirectionOf(dirf)
    ensures dirf <= 127 ==> DirfAfter(dirf, n, on) <= 127
    ensures snd <= 127 ==> SndAfter(snd, n, on) <= 127
  {
    if IsDirfFunction(n) {
      BitWriteIsLocal(dirf, DirfMask(n), on, DIR);
      if IsDirfFunction(m) { BitWriteIsLocal(dirf, DirfMask(n), on, DirfMask(m)); }
    } else if IsSndFunction(n) {
      BitWriteIsLocal(snd, SndMask(n), on, 0x01);
      if IsSndFunction(m) { BitWriteIsLocal(snd, SndMask(n), on, SndMask(m)); }
    }
  }

  /** Writing the direction bit leaves F0..F4 alone. */
  lemma DirectionWriteIsLocal(dirf: bv8, snd: bv8, reverse: bool, m: int)
    requires 0 <= m <= 8
    ensures FunctionBit(With(dirf, DIR, reverse), snd, m) == FunctionBit(dirf, snd, m)
    ensures DirectionOf(With(dirf, DIR, reverse)) == if reverse then Reverse else Forward
    ensures dirf <= 127 ==> With(dirf, DIR, reverse) <= 127
  {
    BitWriteIsLocal(dirf, DIR, reverse, DIR);
    if IsDirfFunction(m) { BitWriteIsLocal(dirf, DIR, reverse, DirfMask(m)); }
  }

  /** The direction is bit 0x20, set for Reverse; writing it leaves the other bits alone. */
  lemma DirectionIsBit(dirf: bv8, reverse: bool)
    ensures DirectionOf(dirf) == Reverse <==> dirf & 0x20 != 0
    ensures With(dirf, DIR, reverse) & 0x20 != 0 <==> reverse
    ensures With(dirf, DIR, reverse) & 0xDF == dirf & 0xDF
  {
  }

  /** wiThrottle speed: -1 is emergency stop, 0 is stop, 1..126 are steps. */
  predicate IsSpeed(s: int) {
    -1 <= s <= 126
  }

  function SpeedByte(s: int): (b: bv8)
    requires IsSpeed(s)
    ensures b <= 127
  {
    if s == -1 then 1 else if s == 0 then 0 else (s + 1) as bv8
  }

  function SpeedOfByte(b: bv8): (s: int)
    requires b <= 127
    ensures IsSpeed(s)
  {
    if b == 0 then 0 else if b == 1 then -1 else b as int - 1
  }

  lemma SpeedSurvives(s: int)
    requires IsSpeed(s)
    ensures SpeedOfByte(SpeedByte(s)) == s
  {
    if s >= 1 { assert (s + 1) % 256 == s + 1; }
  }

  lemma SpeedByteSurvives(b: bv8)
    requires b <= 127
    ensures SpeedByte(SpeedOfByte(b)) == b
  {
    if b > 1 { assert (b as int) as bv8 == b; }
  }

  /** The scales meet at stop, at emergency stop, and one step apart above. */
  lemma SpeedCodes(s: int, b: bv8)
    requires IsSpeed(s) && b <= 127
    ensures SpeedByte(s) as int == if s == -1 then 1 else if s == 0 then 0 else s + 1
    ensures SpeedOfByte(b) == if b == 0 then 0 else if b == 1 then -1 else b as int - 1
  {
    if s >= 1 { assert (s + 1) % 256 == s + 1; }
  }

  /** The two speed scales are in bijection; stop and emergency stop swap their order. */
  lemma SpeedScalesAgree(s: int, b: bv8)
    requires IsSpeed(s) && b <= 127
    ensures SpeedOfByte(SpeedByte(s)) == s
    ensures SpeedByte(SpeedOfByte(b)) == b
    ensures SpeedByte(s) == b <==> SpeedOfByte(b) == s
  {
    SpeedSurvives(s);
    SpeedByteSurvives(b);
  }
}
