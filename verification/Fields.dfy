/**
 The fields of a LocoNet message and the accessors that read and write numbers scattered over
 single bits of several fields. Accessors hold references, so several mappings may share a field.
 */
module Fields {
  import opened Wrappers
  import opened Bits

  /** One bit of a number lives at the masked position of a field. */
  datatype Mapping<F> = Mapping(field: F, mask: bv8)

  /** The fields' values after a write, and whether the write went through. */
  datatype Written<F> = Written(cells: map<F, bv8>, ok: bool)

  predicate Covered<F(==)>(cells: map<F, bv8>, ms: seq<Mapping<F>>) {
    forall i :: 0 <= i < |ms| ==> ms[i].field in cells
  }

  /** Bits are written from the least significant on; a mask that reaches the top bit cannot be set. */
  function WriteGroup<F(==)>(cells: map<F, bv8>, ms: seq<Mapping<F>>, v: bv32): (w: Written<F>)
    requires Covered(cells, ms)
    ensures w.cells.Keys == cells.Keys
  {
    if ms == [] then Written(cells, true)
    else
      var on := v & 1 != 0;
      if on && ms[0].mask > 127 then Written(cells, false)
      else WriteGroup(cells[ms[0].field := With(cells[ms[0].field], ms[0].mask, on)], ms[1..], v >> 1)
  }

  function Double(x: bv32): bv32 {
    x << 1
  }

  function Or(x: bv32, y: bv32): bv32 {
    x | y
  }

  function ReadGroup<F(==)>(cells: map<F, bv8>, ms: seq<Mapping<F>>): bv32
    requires Covered(cells, ms)
  {
    if ms == [] then 0
    else Or(if Has(cells[ms[0].field], ms[0].mask) then 1 else 0, Double(ReadGroup(cells, ms[1..])))
  }

  /** The n least significant bits, all of them from 32 on. */
  function LowMask(n: nat): bv32 {
    if n == 0 then 0 else Or(1, Double(LowMask(n - 1)))
  }

  /** Masks are usable, and no two mappings to the same field share a bit. */
  predicate Separate<F(==)>(ms: seq<Mapping<F>>) {
    && (forall i :: 0 <= i < |ms| ==> 0 != ms[i].mask <= 127)
    && (forall i, j :: 0 <= i < j < |ms| && ms[i].field == ms[j].field ==> ms[i].mask & ms[j].mask == 0)
  }

  /** No mapping covers any of these bits of field f. */
  predicate Avoids<F(==)>(ms: seq<Mapping<F>>, f: F, bits: bv8) {
    forall i :: 0 <= i < |ms| && ms[i].field == f ==> ms[i].mask & bits == 0
  }

  lemma AvoidsEach<F>(ms: seq<Mapping<F>>, f: F, bits: bv8)
    requires Avoids(ms, f, bits) && ms != []
    ensures ms[0].field == f ==> ms[0].mask & bits == 0
    ensures Avoids(ms[1..], f, bits)
  {
  }

  /** Some of the bits of a byte. */
  function Part(b: bv8, bits: bv8): bv8 {
    b & bits
  }

  lemma WriteKeepsOtherBits(b: bv8, mask: bv8, on: bool, other: bv8)
    requires mask & other == 0
    ensures Part(With(b, mask, on), other) == Part(b, other)
  {
    assert (b & !mask) & other == b & other;
    assert ((b & !mask) | mask) & other == b & other;
  }

  /** Bits that no mapping covers stay as they were, in every field, whether or not the write goes through. */
  lemma {:induction false} GroupLeavesOtherBits<F>(cells: map<F, bv8>, ms: seq<Mapping<F>>, v: bv32, f: F, other: bv8)
    requires Covered(cells, ms) && f in cells
    requires Avoids(ms, f, other)
    ensures Part(WriteGroup(cells, ms, v).cells[f], other) == Part(cells[f], other)
  {
    hide With, Avoids, Part;
    if ms != [] {
      AvoidsEach(ms, f, other);
      var m, on := ms[0], v & 1 != 0;
      if !(on && m.mask > 127) {
        var next := cells[m.field := With(cells[m.field], m.mask, on)];
        if m.field == f {
          WriteKeepsOtherBits(cells[f], m.mask, on, other);
        }
        GroupLeavesOtherBits(next, ms[1..], v >> 1, f, other);
      }
    }
  }

  lemma LowBits(v: bv32, low: bv32)
    ensures v & Or(1, Double(low)) == Or(if v & 1 != 0 then 1 else 0, Double((v >> 1) & low))
  {
    assert v & (1 | (low << 1)) == (v & 1) | (((v >> 1) & low) << 1);
    assert v & 1 == if v & 1 != 0 then 1 else 0;
  }

  lemma WrittenBitReads(b: bv8, mask: bv8, on: bool)
    requires mask != 0
    ensures Has(With(b, mask, on), mask) == on
  {
    assert ((b & !mask) | mask) & mask == mask;
    assert (b & !mask) & mask == 0;
  }

  lemma RestIsSeparate<F>(ms: seq<Mapping<F>>)
    requires Separate(ms) && ms != []
    ensures Separate(ms[1..]) && 0 != ms[0].mask <= 127
    ensures Avoids(ms[1..], ms[0].field, ms[0].mask)
  {
    forall i | 0 <= i < |ms| - 1 && ms[1..][i].field == ms[0].field ensures ms[1..][i].mask & ms[0].mask == 0 {
      assert ms[0].mask & ms[i + 1].mask == 0;
      assert ms[1..][i].mask & ms[0].mask == ms[0].mask & ms[i + 1].mask;
    }
  }

  /** Writing a number and reading it back gives its n low bits, for n mappings on separate bits. */
  lemma {:induction false} GroupRoundTrip<F>(cells: map<F, bv8>, ms: seq<Mapping<F>>, v: bv32)
    requires Covered(cells, ms) && Separate(ms)
    ensures WriteGroup(cells, ms, v).ok
    ensures ReadGroup(WriteGroup(cells, ms, v).cells, ms) == v & LowMask(|ms|)
  {
    hide With, Separate, Avoids;
    if ms == [] {
      assert v & 0 == 0;
    } else {
      var m, rest, on := ms[0], ms[1..], v & 1 != 0;
      var next := cells[m.field := With(cells[m.field], m.mask, on)];
      RestIsSeparate(ms);
      GroupRoundTrip(next, rest, v >> 1);
      var after := WriteGroup(next, rest, v >> 1).cells;
      GroupLeavesOtherBits(next, rest, v >> 1, m.field, m.mask);
      WrittenBitReads(cells[m.field], m.mask, on);
      assert Has(after[m.field], m.mask) == on;
      LowBits(v, LowMask(|rest|));
    }
  }

  predicate Within<F>(small: map<F, bv8>, big: map<F, bv8>) {
    forall f :: f in small ==> f in big && big[f] == small[f]
  }

  /** A write is the same whether the other fields are looked at or not. */
  lemma {:induction false} GroupWithinMoreFields<F>(small: map<F, bv8>, big: map<F, bv8>, ms: seq<Mapping<F>>, v: bv32)
    requires Within(small, big) && Covered(small, ms)
    ensures Covered(big, ms)
    ensures WriteGroup(big, ms, v).ok == WriteGroup(small, ms, v).ok
    ensures Within(WriteGroup(small, ms, v).cells, WriteGroup(big, ms, v).cells)
    ensures forall f :: f in big && f !in small ==> WriteGroup(big, ms, v).cells[f] == big[f]
  {
    hide With;
    if ms != [] {
      var m, on := ms[0], v & 1 != 0;
      var value := With(small[m.field], m.mask, on);
      GroupWithinMoreFields(small[m.field := value], big[m.field := value], ms[1..], v >> 1);
    }
  }

  /** What a group reads depends only on its own bits. */
  lemma {:induction false} GroupReadsOwnBits<F>(a: map<F, bv8>, b: map<F, bv8>, ms: seq<Mapping<F>>)
    requires Covered(a, ms) && Covered(b, ms)
    requires forall i :: 0 <= i < |ms| ==> Part(a[ms[i].field], ms[i].mask) == Part(b[ms[i].field], ms[i].mask)
    ensures ReadGroup(a, ms) == ReadGroup(b, ms)
  {
    if ms != [] {
      assert forall i :: 0 <= i < |ms| - 1 ==> ms[1..][i] == ms[i + 1];
      GroupReadsOwnBits(a, b, ms[1..]);
    }
  }

  // ----- A byte over a 7-bit field and one bit elsewhere -----

  function WriteByte<F(==)>(cells: map<F, bv8>, low: F, top: Mapping<F>, v: bv8): map<F, bv8>
    requires top.field in cells
  {
    cells[top.field := With(cells[top.field], top.mask, v & 0x80 != 0)][low := v & 0x7F]
  }

  function ReadByte<F(==)>(cells: map<F, bv8>, low: F, top: Mapping<F>): bv8
    requires low in cells && top.field in cells
  {
    if Has(cells[top.field], top.mask) then cells[low] | 0x80 else cells[low]
  }

  /** Every byte survives exactly when the top bit has a place of its own. */
  lemma ByteRoundTrip<F>(cells: map<F, bv8>, low: F, top: Mapping<F>)
    requires low in cells && top.field in cells
    ensures (forall v :: ReadByte(WriteByte(cells, low, top, v), low, top) == v) <==> low != top.field && top.mask != 0
  {
    if low != top.field && top.mask != 0 {
      forall v ensures ReadByte(WriteByte(cells, low, top, v), low, top) == v {
        WrittenBitReads(cells[top.field], top.mask, v & 0x80 != 0);
        assert v & 0x80 != 0 ==> (v & 0x7F) | 0x80 == v;
        assert v & 0x80 == 0 ==> v & 0x7F == v;
      }
    } else {
      assert ReadByte(WriteByte(cells, low, top, 0x80), low, top) != 0x80;
    }
  }

  // ----- The immediate packet: seven numbers over seven fields -----

  datatype Register = ByteNum | RepeatCount | Im(k: nat)

  /** The fields of an immediate packet that hold variable data. */
  datatype Wiring<F> = Wiring(reps: F, dhi: F, im: seq<F>)

  predicate Wired<F(==)>(w: Wiring<F>, cells: map<F, bv8>) {
    && |w.im| == 5 && w.reps in cells && w.dhi in cells && w.reps != w.dhi
    && (forall k :: 0 <= k < 5 ==> w.im[k] in cells && w.im[k] != w.reps && w.im[k] != w.dhi)
    && (forall j, k :: 0 <= j < k < 5 ==> w.im[j] != w.im[k])
  }

  lemma KeysKeepWiring<F>(w: Wiring<F>, a: map<F, bv8>, b: map<F, bv8>)
    requires Wired(w, a) && a.Keys == b.Keys
    ensures Wired(w, b)
  {
  }

  lemma DistinctFieldsAreWired<F>(reps: F, dhi: F, f1: F, f2: F, f3: F, f4: F, f5: F, cells: map<F, bv8>)
    requires reps in cells && dhi in cells && f1 in cells && f2 in cells && f3 in cells && f4 in cells && f5 in cells
    requires reps != dhi && reps != f1 && reps != f2 && reps != f3 && reps != f4 && reps != f5
    requires dhi != f1 && dhi != f2 && dhi != f3 && dhi != f4 && dhi != f5
    requires f1 != f2 && f1 != f3 && f1 != f4 && f1 != f5 && f2 != f3 && f2 != f4 && f2 != f5
    requires f3 != f4 && f3 != f5 && f4 != f5
    ensures Wired(Wiring(reps, dhi, [f1, f2, f3, f4, f5]), cells)
  {
  }

  function ByteNumBits<F>(reps: F): seq<Mapping<F>> {
    [Mapping(reps, 0x10), Mapping(reps, 0x20), Mapping(reps, 0x40)]
  }

  function RepeatBits<F>(reps: F): seq<Mapping<F>> {
    [Mapping(reps, 0x01), Mapping(reps, 0x02), Mapping(reps, 0x04)]
  }

  function TopBit(k: nat): (mask: bv8)
    requires k < 5
    ensures 0 != mask <= 127
  {
    if k == 0 then 0x01 else if k == 1 then 0x02 else if k == 2 then 0x04 else if k == 3 then 0x08 else 0x10
  }

  predicate IsRegister(r: Register) {
    r.Im? ==> r.k < 5
  }

  function Put<F(==)>(w: Wiring<F>, cells: map<F, bv8>, r: Register, v: bv8): map<F, bv8>
    requires Wired(w, cells) && IsRegister(r)
  {
    match r
    case ByteNum => WriteGroup(cells, ByteNumBits(w.reps), v as bv32).cells
    case RepeatCount => WriteGroup(cells, RepeatBits(w.reps), v as bv32).cells
    case Im(k) => WriteByte(cells, w.im[k], Mapping(w.dhi, TopBit(k)), v)
  }

  function Get<F(==)>(w: Wiring<F>, cells: map<F, bv8>, r: Register): bv32
    requires Wired(w, cells) && IsRegister(r)
  {
    match r
    case ByteNum => ReadGroup(cells, ByteNumBits(w.reps))
    case RepeatCount => ReadGroup(cells, RepeatBits(w.reps))
    case Im(k) => ReadByte(cells, w.im[k], Mapping(w.dhi, TopBit(k))) as bv32
  }

  /** What survives of a value: three bits, or a whole byte. */
  function Kept(r: Register, v: bv8): bv32 {
    if r.Im? then v as bv32 else v as bv32 & 7
  }

  lemma GroupTouchesOneField<F>(cells: map<F, bv8>, ms: seq<Mapping<F>>, v: bv32, home: F, f: F)
    requires Covered(cells, ms) && f in cells && f != home
    requires forall i :: 0 <= i < |ms| ==> ms[i].field == home
    ensures WriteGroup(cells, ms, v).cells[f] == cells[f]
  {
    GroupLeavesOtherBits(cells, ms, v, f, 0xFF);
    assert Part(cells[f], 0xFF) == cells[f];
  }

  lemma GroupsOfReps<F>(w: Wiring<F>, cells: map<F, bv8>, r: Register, v: bv8)
    requires Wired(w, cells) && !r.Im?
    ensures Get(w, Put(w, cells, r, v), r) == Kept(r, v)
    ensures Get(w, Put(w, cells, r, v), if r.ByteNum? then RepeatCount else ByteNum)
         == Get(w, cells, if r.ByteNum? then RepeatCount else ByteNum)
  {
    hide WriteGroup, ReadGroup;
    var mine, others := ByteNumBits(w.reps), RepeatBits(w.reps);
    if r.RepeatCount? { mine, others := others, mine; }
    GroupRoundTrip(cells, mine, v as bv32);
    assert LowMask(3) == 7;
    forall i | 0 <= i < 3
      ensures Part(Put(w, cells, r, v)[others[i].field], others[i].mask) == Part(cells[others[i].field], others[i].mask)
    {
      GroupLeavesOtherBits(cells, mine, v as bv32, w.reps, others[i].mask);
    }
    GroupReadsOwnBits(Put(w, cells, r, v), cells, others);
  }

  lemma HasIsPart(b: bv8, mask: bv8)
    ensures Has(b, mask) <==> Part(b, mask) != 0
  {
  }

  lemma TopBitsAreSeparate(k: nat, j: nat)
    requires k < 5 && j < 5 && k != j
    ensures TopBit(k) & TopBit(j) == 0
  {
  }

  lemma BytesShareTheirTopBits<F>(w: Wiring<F>, cells: map<F, bv8>, k: nat, v: bv8, j: nat)
    requires Wired(w, cells) && k < 5 && j < 5
    ensures Get(w, Put(w, cells, Im(k), v), Im(j)) == if j == k then v as bv32 else Get(w, cells, Im(j))
  {
    hide With, Has, TopBit, Part;
    if j == k {
      ByteRoundTrip(cells, w.im[k], Mapping(w.dhi, TopBit(k)));
    } else {
      TopBitsAreSeparate(k, j);
      WriteKeepsOtherBits(cells[w.dhi], TopBit(k), v & 0x80 != 0, TopBit(j));
      HasIsPart(cells[w.dhi], TopBit(j));
      HasIsPart(With(cells[w.dhi], TopBit(k), v & 0x80 != 0), TopBit(j));
      assert w.im[k] != w.im[j];
    }
  }

  /** The seven numbers of an immediate packet are independent, though they share two of its fields. */
  lemma RegistersAreIndependent<F>(w: Wiring<F>, cells: map<F, bv8>, r: Register, v: bv8, other: Register)
    requires Wired(w, cells) && IsRegister(r) && IsRegister(other)
    ensures Wired(w, Put(w, cells, r, v))
    ensures Get(w, Put(w, cells, r, v), other) == if other == r then Kept(r, v) else Get(w, cells, other)
  {
    hide WriteGroup, ReadGroup, With;
    if !r.Im? {
      GroupsOfReps(w, cells, r, v);
      if other.Im? {
        var ms := if r.ByteNum? then ByteNumBits(w.reps) else RepeatBits(w.reps);
        GroupTouchesOneField(cells, ms, v as bv32, w.reps, w.dhi);
        GroupTouchesOneField(cells, ms, v as bv32, w.reps, w.im[other.k]);
      }
    } else if other.Im? {
      BytesShareTheirTopBits(w, cells, r.k, v, other.k);
    } else {
      var ms := if other.ByteNum? then ByteNumBits(w.reps) else RepeatBits(w.reps);
      GroupReadsOwnBits(Put(w, cells, r, v), cells, ms);
    }
  }

  lemma ThreeBitsRead<F>(cells: map<F, bv8>, f: F, x: bv8, y: bv8, z: bv8)
    requires f in cells
    ensures ReadGroup(cells, [Mapping(f, x), Mapping(f, y), Mapping(f, z)])
         == (if cells[f] & x != 0 then 1 else 0) + (if cells[f] & y != 0 then 2 else 0)
            + (if cells[f] & z != 0 then 4 else 0)
  {
    var ms := [Mapping(f, x), Mapping(f, y), Mapping(f, z)];
    assert ms[1..] == [ms[1], ms[2]] && [ms[1], ms[2]][1..] == [ms[2]] && [ms[2]][1..] == [];
    assert ReadGroup(cells, [ms[2]]) == if Has(cells[f], z) then 1 else 0;
    assert ReadGroup(cells, [ms[1], ms[2]]) == (if Has(cells[f], y) then 1 else 0) + if Has(cells[f], z) then 2 else 0;
  }

  /**
   Where the numbers of a packet are: the byte count in bits 0x10, 0x20, 0x40 and the repeat count in bits
   0x01, 0x02, 0x04 of one field, least bit first, and the top bit of each byte in a bit of the other.
   */
  lemma RegistersAreBits<F>(w: Wiring<F>, cells: map<F, bv8>, k: nat)
    requires Wired(w, cells) && k < 5
    ensures var reps := cells[w.reps];
            && Get(w, cells, ByteNum)
                 == (if reps & 0x10 != 0 then 1 else 0) + (if reps & 0x20 != 0 then 2 else 0)
                    + (if reps & 0x40 != 0 then 4 else 0)
            && Get(w, cells, RepeatCount)
                 == (if reps & 0x01 != 0 then 1 else 0) + (if reps & 0x02 != 0 then 2 else 0)
                    + (if reps & 0x04 != 0 then 4 else 0)
    ensures cells[w.im[k]] <= 127 ==>
              var b := Get(w, cells, Im(k)) as bv8;
              b & 0x7F == cells[w.im[k]] && (b & 0x80 != 0 <==> cells[w.dhi] & [0x01, 0x02, 0x04, 0x08, 0x10][k] != 0)
  {
    ThreeBitsRead(cells, w.reps, 0x10, 0x20, 0x40);
    ThreeBitsRead(cells, w.reps, 0x01, 0x02, 0x04);
  }

  function PutAll<F(==)>(w: Wiring<F>, cells: map<F, bv8>, puts: seq<(Register, bv8)>): (after: map<F, bv8>)
    requires Wired(w, cells) && forall i :: 0 <= i < |puts| ==> IsRegister(puts[i].0)
    ensures Wired(w, after)
  {
    if puts == [] then cells
    else
      var before := PutAll(w, cells, puts[..|puts| - 1]);
      var (r, v) := puts[|puts| - 1];
      RegistersAreIndependent(w, before, r, v, r);
      Put(w, before, r, v)
  }

  function LastPut(puts: seq<(Register, bv8)>, r: Register): Option<bv8> {
    if puts == [] then None
    else if puts[|puts| - 1].0 == r then Some(puts[|puts| - 1].1)
    else LastPut(puts[..|puts| - 1], r)
  }

  /** However the numbers of a packet are written, each reads back its own last value. */
  lemma {:induction false} AnyOrderOfPuts<F>(w: Wiring<F>, cells: map<F, bv8>, puts: seq<(Register, bv8)>, r: Register)
    requires Wired(w, cells) && IsRegister(r) && forall i :: 0 <= i < |puts| ==> IsRegister(puts[i].0)
    ensures Get(w, PutAll(w, cells, puts), r)
         == match LastPut(puts, r) { case Some(v) => Kept(r, v) case None => Get(w, cells, r) }
  {
    hide Get, Put, Wired;
    if puts != [] {
      var before := puts[..|puts| - 1];
      AnyOrderOfPuts(w, cells, before, r);
      RegistersAreIndependent(w, PutAll(w, cells, before), puts[|puts| - 1].0, puts[|puts| - 1].1, r);
    }
  }

  // ----- The loops over bits -----

  lemma DoubleOfOr(x: bv32, y: bv32)
    ensures Double(Or(x, y)) == Or(Double(x), Double(y)) && Double(0) == 0
  {
    var one: bv32 := 1;
    assert forall z: bv32 {:trigger Double(z)} :: Double(z) == z << one;
    assert (x | y) << one == (x << one) | (y << one);
  }

  lemma OrIsAssociative(x: bv32, y: bv32, z: bv32)
    ensures Or(Or(x, y), z) == Or(x, Or(y, z)) && Or(0, x) == x == Or(x, 0)
  {
  }

  /** A number moved up by i bits. */
  function Up(x: bv32, i: nat): bv32 {
    if i == 0 then x else Double(Up(x, i - 1))
  }

  lemma {:induction false} UpOfOr(x: bv32, y: bv32, i: nat)
    ensures Up(Or(x, y), i) == Or(Up(x, i), Up(y, i))
    ensures Up(Double(x), i) == Double(Up(x, i))
    ensures Up(0, i) == 0
  {
    hide Or, Double;
    if i != 0 {
      UpOfOr(x, y, i - 1);
      DoubleOfOr(Up(x, i - 1), Up(y, i - 1));
    }
  }

  /** One round of the reading loop. */
  lemma ReadStep(result: bv32, on: bool, rest: bv32, i: nat)
    ensures Or(result, Up(Or(if on then 1 else 0, Double(rest)), i))
         == Or(if on then Or(result, Up(1, i)) else result, Up(rest, i + 1))
  {
    hide Or, Double;
    UpOfOr(if on then 1 else 0, Double(rest), i);
    UpOfOr(rest, 0, i);
    OrIsAssociative(result, Up(1, i), Up(rest, i + 1));
    OrIsAssociative(Up(rest, i + 1), 0, 0);
  }

  // ----- The objects -----

  /** A data byte of a message at a fixed index; a constant field accepts nothing but its constant. */
  class Field7Bit {
    const index: nat
    const constant: Option<bv8>
    var stored: bv8

    constructor (index: nat, constant: Option<bv8>)
      ensures this.index == index && this.constant == constant && stored == 0
      ensures constant.None? ==> IsPlain()
    {
      this.index, this.constant, stored := index, constant, 0;
    }

    function Value(): bv8 reads this {
      constant.GetOr(stored)
    }

    predicate IsPlain() reads this {
      constant.None? && stored <= 127
    }

    predicate Accepts(v: bv8) {
      if constant.Some? then v == constant.value else v <= 127
    }

    method Set(v: bv8) returns (ok: bool)
      modifies this
      ensures ok == Accepts(v) && Value() == if ok then v else old(Value())
    {
      ok := Accepts(v);
      if ok && constant.None? { stored := v; }
    }

    /** Sets or clears the masked bits. */
    method SetBit(mask: bv8, on: bool) returns (ok: bool)
      requires IsPlain()
      modifies this
      ensures IsPlain()
      ensures ok == (on ==> mask <= 127)
      ensures Value() == (if ok then With(old(Value()), mask, on) else old(Value()))
    {
      hide With;
      BitWriteFits(Value(), mask, on);
      if on {
        ok := Set(Value() | mask);
      } else {
        ok := Set(Value() & !mask);
      }
    }
  }

  lemma BitWriteFits(b: bv8, mask: bv8, on: bool)
    requires b <= 127
    ensures With(b, mask, on) == if on then b | mask else b & !mask
    ensures on ==> (b | mask <= 127 <==> mask <= 127)
    ensures b & !mask <= 127
  {
    assert (b & !mask) | mask == b | mask;
  }

  /** What the fields hold. */
  ghost function Held(fs: set<Field7Bit>): map<Field7Bit, bv8> reads fs {
    map f | f in fs :: f.Value()
  }

  lemma HeldKeys(fs: set<Field7Bit>)
    ensures Held(fs).Keys == fs
  {
  }

  /** Bit accessors are laid over plain fields only. */
  ghost predicate Plain(fs: set<Field7Bit>) reads fs {
    forall f :: f in fs ==> f.IsPlain()
  }

  lemma SevenPlainFields(a: Field7Bit, b: Field7Bit, c: Field7Bit, d: Field7Bit, e: Field7Bit, f: Field7Bit,
                         g: Field7Bit)
    requires a.IsPlain() && b.IsPlain() && c.IsPlain() && d.IsPlain() && e.IsPlain() && f.IsPlain() && g.IsPlain()
    ensures Plain({a, b, c, d, e, f, g})
  {
    hide Field7Bit.IsPlain;
  }

  class BitGroupAccess {
    const mappings: seq<Mapping<Field7Bit>>

    constructor (mappings: seq<Mapping<Field7Bit>>)
      ensures this.mappings == mappings
    {
      this.mappings := mappings;
    }

    ghost function Fields(): set<Field7Bit> {
      set i | 0 <= i < |mappings| :: mappings[i].field
    }

    method GetValue() returns (result: bv32)
      ensures result == ReadGroup(Held(Fields()), mappings)
    {
      hide Or, Double, Has;
      result := 0;
      var mask: bv32 := 1;
      ghost var cells := Held(Fields());
      assert mappings[0..] == mappings;
      OrIsAssociative(ReadGroup(cells, mappings), 0, 0);
      for i := 0 to |mappings|
        invariant mask == Up(1, i)
        invariant Or(result, Up(ReadGroup(cells, mappings[i..]), i)) == ReadGroup(cells, mappings)
      {
        var m := mappings[i];
        var on := Has(m.field.Value(), m.mask);
        assert mappings[i..][1..] == mappings[i + 1..];
        ReadStep(result, on, ReadGroup(cells, mappings[i + 1..]), i);
        if on { result := Or(result, mask); }
        mask := Double(mask);
      }
      UpOfOr(0, 0, |mappings|);
      OrIsAssociative(result, 0, 0);
    }

    /** Writes one bit of the number. */
    method SetMapped(m: Mapping<Field7Bit>, on: bool) returns (ok: bool)
      requires Plain(Fields()) && m in mappings
      modifies m.field
      ensures Plain(Fields()) && ok == (on ==> m.mask <= 127)
      ensures var was := old(Held(Fields()));
              Held(Fields()) == if ok then was[m.field := With(was[m.field], m.mask, on)] else was
    {
      hide With;
      assert m.field in Fields();
      ok := m.field.SetBit(m.mask, on);
    }

    /** Writes bit by bit; a failing bit leaves the earlier ones written. */
    method SetValue(value: bv32) returns (ok: bool)
      requires Plain(Fields())
      modifies Fields()
      ensures Plain(Fields())
      ensures Written(Held(Fields()), ok) == WriteGroup(old(Held(Fields())), mappings, value)
    {
      hide With;
      var input := value;
      ghost var goal := WriteGroup(Held(Fields()), mappings, value);
      for i := 0 to |mappings|
        invariant Plain(Fields())
        invariant WriteGroup(Held(Fields()), mappings[i..], input) == goal
      {
        var bitValue := input & 1 != 0;
        ok := SetMapped(mappings[i], bitValue);
        if !ok { return; }
        assert mappings[i..][1..] == mappings[i + 1..];
        input := input >> 1;
      }
      ok := true;
    }
  }

  class ByteAccess7And1Bit {
    const low: Field7Bit
    const top: Mapping<Field7Bit>

    constructor (low: Field7Bit, top: Mapping<Field7Bit>)
      ensures this.low == low && this.top == top
    {
      this.low, this.top := low, top;
    }

    method GetValue() returns (result: bv8)
      ensures result == ReadByte(Held({low, top.field}), low, top)
    {
      result := low.Value();
      if Has(top.field.Value(), top.mask) {
        result := result | 0x80;
      }
    }

    method SetValue(value: bv8) returns (ok: bool)
      requires Plain({low, top.field})
      modifies low, top.field
      ensures ok == (value & 0x80 != 0 ==> top.mask <= 127)
      ensures Plain({low, top.field})
      ensures var was := old(Held({low, top.field}));
              Held({low, top.field}) == if ok then WriteByte(was, low, top, value) else was
    {
      hide With;
      assert value & 0x7F <= 127;
      ok := top.field.SetBit(top.mask, value & 0x80 != 0);
      if ok {
        ok := low.Set(value & 0x7F);
      }
    }
  }

  /** The fields of an immediate packet and the accessors laid over them. */
  class ImmPacket {
    const spare: Field7Bit
    const reps: Field7Bit
    const dhi: Field7Bit
    const im1: Field7Bit
    const im2: Field7Bit
    const im3: Field7Bit
    const im4: Field7Bit
    const im5: Field7Bit
    const byteNum: BitGroupAccess
    const repeatCount: BitGroupAccess
    const im1Byte: ByteAccess7And1Bit
    const im2Byte: ByteAccess7And1Bit
    const im3Byte: ByteAccess7And1Bit
    const im4Byte: ByteAccess7And1Bit
    const im5Byte: ByteAccess7And1Bit

    ghost function Fields(): set<Field7Bit> {
      {reps, dhi, im1, im2, im3, im4, im5}
    }

    ghost function Wires(): Wiring<Field7Bit> {
      Wiring(reps, dhi, [im1, im2, im3, im4, im5])
    }

    ghost predicate Overlays(b: ByteAccess7And1Bit, low: Field7Bit, k: nat)
      requires k < 5
    {
      b.low == low && b.top == Mapping(dhi, TopBit(k))
    }

    /** The accessors are the registers of this packet's own wiring. */
    ghost predicate Valid() reads Fields() {
      && Wired(Wires(), Held(Fields())) && Plain(Fields())
      && byteNum.mappings == ByteNumBits(reps) && repeatCount.mappings == RepeatBits(reps)
      && Overlays(im1Byte, im1, 0) && Overlays(im2Byte, im2, 1) && Overlays(im3Byte, im3, 2)
      && Overlays(im4Byte, im4, 3) && Overlays(im5Byte, im5, 4)
    }

    constructor ()
      ensures Valid()
      ensures spare.index == 2 && spare.constant == Some(0x7F) && reps.index == 3 && dhi.index == 4
      ensures im1.index == 5 && im2.index == 6 && im3.index == 7 && im4.index == 8 && im5.index == 9
    {
      spare := new Field7Bit(2, Some(0x7F));
      var r := new Field7Bit(3, None);
      var d := new Field7Bit(4, None);
      var f1 := new Field7Bit(5, None);
      var f2 := new Field7Bit(6, None);
      var f3 := new Field7Bit(7, None);
      var f4 := new Field7Bit(8, None);
      var f5 := new Field7Bit(9, None);
      reps, dhi, im1, im2, im3, im4, im5 := r, d, f1, f2, f3, f4, f5;
      byteNum := new BitGroupAccess(ByteNumBits(r));
      repeatCount := new BitGroupAccess(RepeatBits(r));
      im1Byte := new ByteAccess7And1Bit(f1, Mapping(d, TopBit(0)));
      im2Byte := new ByteAccess7And1Bit(f2, Mapping(d, TopBit(1)));
      im3Byte := new ByteAccess7And1Bit(f3, Mapping(d, TopBit(2)));
      im4Byte := new ByteAccess7And1Bit(f4, Mapping(d, TopBit(3)));
      im5Byte := new ByteAccess7And1Bit(f5, Mapping(d, TopBit(4)));
      new;
      assert r.IsPlain() && d.IsPlain() && f1.IsPlain() && f2.IsPlain() && f3.IsPlain() && f4.IsPlain() && f5.IsPlain();
      hide Wired, Held, Plain, TopBit, ByteNumBits, RepeatBits, Field7Bit.IsPlain, Field7Bit.Value;
      SevenPlainFields(r, d, f1, f2, f3, f4, f5);
      HeldKeys(Fields());
      DistinctFieldsAreWired(reps, dhi, im1, im2, im3, im4, im5, Held(Fields()));
      assert Wired(Wires(), Held(Fields())) && Plain(Fields());
      assert byteNum.mappings == ByteNumBits(reps) && repeatCount.mappings == RepeatBits(reps);
      assert Overlays(im1Byte, im1, 0) && Overlays(im2Byte, im2, 1) && Overlays(im3Byte, im3, 2);
      assert Overlays(im4Byte, im4, 3) && Overlays(im5Byte, im5, 4);
    }

    /** Writing through the accessor of a register. */
    method Write(r: Register, v: bv8)
      requires Valid() && IsRegister(r)
      modifies Fields()
      ensures Valid()
      ensures Held(Fields()) == Put(Wires(), old(Held(Fields())), r, v)
    {
      match r
      case ByteNum => {
        hide WriteGroup, TopBit;
        WriteReps(byteNum, v);
      }
      case RepeatCount => {
        hide WriteGroup, TopBit;
        WriteReps(repeatCount, v);
      }
      case Im(k) => {
        hide WriteByte, TopBit;
        var b := if k == 0 then im1Byte else if k == 1 then im2Byte else if k == 2 then im3Byte
                 else if k == 3 then im4Byte else im5Byte;
        WriteIm(b, k, v);
      }
    }

    method WriteReps(group: BitGroupAccess, v: bv8)
      requires Valid() && (group == byteNum || group == repeatCount)
      modifies reps
      ensures Valid()
      ensures Held(Fields()) == WriteGroup(old(Held(Fields())), group.mappings, v as bv32).cells
    {
      hide WriteGroup, TopBit;
      assert group.mappings[0].field in group.Fields() && group.Fields() == {reps};
      ghost var was := Held(Fields());
      GroupWithinMoreFields(Held({reps}), was, group.mappings, v as bv32);
      hide Wired;
      var _ := group.SetValue(v as bv32);
      KeysKeepWiring(Wires(), was, Held(Fields()));
    }

    method WriteIm(b: ByteAccess7And1Bit, k: nat, v: bv8)
      requires Valid() && k < 5 && b.low == Wires().im[k] && b.top == Mapping(dhi, TopBit(k))
      modifies dhi, b.low
      ensures Valid()
      ensures Held(Fields()) == WriteByte(old(Held(Fields())), b.low, b.top, v)
    {
      hide With;
      ghost var was, low, top := Held(Fields()), b.low, dhi;
      assert low in Fields() && low != dhi;
      hide Wired;
      var _ := b.SetValue(v);
      assert Held({low, top}) == WriteByte(old(Held({low, top})), low, b.top, v);
      assert low.Value() == Held({low, top})[low] && top.Value() == Held({low, top})[top];
      assert Held(Fields()) == WriteByte(was, low, b.top, v);
      KeysKeepWiring(Wires(), was, Held(Fields()));
    }
  }
}
