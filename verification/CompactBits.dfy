/** crypto/types/compact_bit_array.go: bit arrays with a compact encoding. */
module CompactBits {
  import opened Basics
  import opened ByteOrder
  import opened Arith
  import opened Varints

  // Bits of a byte, the high one first

  /** uint8(1) << uint8(7-k). */
  function Mask(k: nat): bv8
    requires k < 8
  {
    match k
    case 0 => 128
    case 1 => 64
    case 2 => 32
    case 3 => 16
    case 4 => 8
    case 5 => 4
    case 6 => 2
    case 7 => 1
  }

  predicate Bit(b: bv8, k: nat)
    requires k < 8
  {
    b & Mask(k) > 0
  }

  function WithBit(b: bv8, k: nat, v: bool): bv8
    requires k < 8
  {
    if v then b | Mask(k) else b & !Mask(k)
  }

  /** Setting a bit changes that bit and no other. */
  lemma WithBitSets(b: bv8, k: nat, v: bool, j: nat)
    requires k < 8 && j < 8
    ensures Bit(WithBit(b, k, v), j) == if j == k then v else Bit(b, j)
  {
  }

  class CompactBitArray {
    var extraBitsStored: nat
    const elems: array<bv8>

    /** Fewer than 8 extra bits, which are part of the last byte. */
    ghost predicate WellFormed()
      reads this
    {
      extraBitsStored < 8 && (extraBitsStored > 0 ==> elems.Length > 0)
    }

    /** The bits, in order. */
    ghost function Bits(): (bits: seq<bool>)
      requires WellFormed()
      reads this, elems
      ensures |bits| == Count(extraBitsStored, elems.Length)
    {
      Stored(elems[..])[..Count(extraBitsStored, elems.Length)]
    }

    constructor (extraBitsStored: nat, elems: array<bv8>)
      ensures this.extraBitsStored == extraBitsStored && this.elems == elems
    {
      this.extraBitsStored := extraBitsStored;
      this.elems := elems;
    }
  }

  /** The number of bits; below zero for extra bits without any byte. */
  function Count(extra: nat, length: nat): int {
    if extra == 0 then length * 8 else (length - 1) * 8 + extra
  }

  /** All bits of the bytes, used or not. */
  ghost function Stored(elems: seq<bv8>): (bits: seq<bool>)
    ensures |bits| == 8 * |elems|
  {
    seq(8 * |elems|, i requires 0 <= i < 8 * |elems| => Bit(elems[i / 8], i % 8))
  }

  /** Changing one bit of one byte changes that bit of the array and no other. */
  lemma StoredWith(elems: seq<bv8>, i: nat, v: bool)
    requires i < 8 * |elems|
    ensures Stored(elems[i / 8 := WithBit(elems[i / 8], i % 8, v)]) == Stored(elems)[i := v]
  {
    hide WithBit, Bit;
    var changed := elems[i / 8 := WithBit(elems[i / 8], i % 8, v)];
    forall j | 0 <= j < 8 * |elems|
      ensures Stored(changed)[j] == Stored(elems)[i := v][j]
    {
      WithBitSets(elems[i / 8], i % 8, v, j % 8);
      assert j == i <==> j / 8 == i / 8 && j % 8 == i % 8;
    }
  }

  /** A new array of unset bits; nil for no bits. */
  method NewCompactBitArray(bits: int) returns (a: CompactBitArray?)
    ensures a == null <==> bits <= 0
    ensures a != null ==> fresh(a) && fresh(a.elems) && a.WellFormed() && a.Bits() == seq(bits, _ => false)
  {
    if bits <= 0 {
      return null;
    }
    var elems := new bv8[(bits + 7) / 8](_ => 0);
    a := new CompactBitArray(bits % 8, elems);
    assert Count(bits % 8, elems.Length) == bits;
  }

  method Size(a: CompactBitArray?) returns (n: int)
    ensures n == if a == null then 0 else Count(a.extraBitsStored, a.elems.Length)
    ensures a != null && a.WellFormed() ==> n == |a.Bits()|
    ensures a != null ==> (n < 0 <==> a.elems.Length == 0 && 0 < a.extraBitsStored < 8)
  {
    if a == null {
      return 0;
    }
    n := Count(a.extraBitsStored, a.elems.Length);
  }

  /** Whether access to the bit at i is out of range of the bytes. Only an index from the size on is caught. */
  ghost predicate OutOfRange(a: CompactBitArray, i: int)
    reads a
  {
    i < Count(a.extraBitsStored, a.elems.Length) && !(0 <= i < 8 * a.elems.Length)
  }

  method GetIndex(a: CompactBitArray?, i: int) returns (r: Result<bool>)
    ensures r.Panic? <==> a != null && OutOfRange(a, i)
    ensures r.Ok? ==>
              (r.value <==> a != null && i < Count(a.extraBitsStored, a.elems.Length) && Stored(a.elems[..])[i])
    ensures a != null && a.WellFormed() ==> (r.Panic? <==> i < 0)
    ensures a != null && a.WellFormed() && i >= 0 ==> r == Ok(i < |a.Bits()| && a.Bits()[i])
  {
    if a == null {
      return Ok(false);
    }
    var size := Size(a);
    if i >= size {
      return Ok(false);
    }
    if i < 0 || i / 8 >= a.elems.Length {
      return Panic;
    }
    r := Ok(Bit(a.elems[i / 8], i % 8));
  }

  /** Sets one bit and leaves all others; from the size on nothing changes. */
  method SetIndex(a: CompactBitArray?, i: int, v: bool) returns (r: Result<bool>)
    modifies if a == null then {} else {a.elems}
    ensures r.Panic? <==> a != null && OutOfRange(a, i)
    ensures r.Ok? ==> (r.value <==> a != null && i < Count(a.extraBitsStored, a.elems.Length))
    ensures a != null ==>
              Stored(a.elems[..]) == if r == Ok(true) then old(Stored(a.elems[..]))[i := v]
                                     else old(Stored(a.elems[..]))
    ensures a != null && a.WellFormed() ==> (r.Panic? <==> i < 0)
    ensures a != null && a.WellFormed() ==>
              a.Bits() == if r == Ok(true) then old(a.Bits())[i := v] else old(a.Bits())
  {
    if a == null {
      return Ok(false);
    }
    var size := Size(a);
    if i >= size {
      return Ok(false);
    }
    if i < 0 || i / 8 >= a.elems.Length {
      return Panic;
    }
    StoredWith(a.elems[..], i, v);
    a.elems[i / 8] := WithBit(a.elems[i / 8], i % 8, v);
    assert a.elems[..] == old(a.elems[..])[i / 8 := WithBit(old(a.elems[i / 8]), i % 8, v)];
    r := Ok(true);
  }

  // The encoding

  const NULL: Bytes := [110, 117, 108, 108]

  function ToBytes(s: seq<bv8>): (b: Bytes)
    ensures |b| == |s|
  {
    seq(|s|, i requires 0 <= i < |s| => s[i] as int)
  }

  function FromBytes(b: Bytes): (s: seq<bv8>)
    ensures |s| == |b|
  {
    seq(|b|, i requires 0 <= i < |b| => b[i] as bv8)
  }

  lemma BytesRestored(s: seq<bv8>)
    ensures FromBytes(ToBytes(s)) == s
  {
    forall i | 0 <= i < |s|
      ensures FromBytes(ToBytes(s))[i] == s[i]
    {
      ByteRestored(s[i]);
    }
  }

  lemma ByteRestored(b: bv8)
    ensures (b as int) as bv8 == b
  {
  }

  /** The number of bits as a varint, then the bytes; "null" for an array without bits. */
  function Encoded(extra: nat, elems: seq<bv8>): Bytes {
    var size := Count(extra, |elems|);
    if size <= 0 then NULL else Varint(size) + ToBytes(elems)
  }

  method CompactMarshal(a: CompactBitArray?) returns (bz: Bytes)
    ensures bz == if a == null then NULL else Encoded(a.extraBitsStored, a.elems[..])
  {
    var size := Size(a);
    if size <= 0 {
      return NULL;
    }
    bz := Varint(size) + ToBytes(a.elems[..]);
  }

  /** encoding/binary's Uvarint from the byte at i on: the value and the number of bytes, 0 bytes if the
      input ends early, and a negative number if the value exceeds 64 bits. */
  function UvarintFrom(bz: Bytes, i: nat, shift: nat, acc: nat): (Uint64, int)
    decreases |bz| - i
  {
    if i >= |bz| then (0, 0)
    else if bz[i] < 128 then
      if i > 9 || (i == 9 && bz[i] > 1) then (0, -(i + 1)) else (Or(acc, Shifted(bz[i], shift)), i + 1)
    else UvarintFrom(bz, i + 1, shift + 7, Or(acc, Shifted(bz[i] % 128, shift)))
  }

  datatype Unmarshalled = Nil | Array(extra: nat, elems: seq<bv8>) | Invalid | Crashes

  /** Conversion of a word to int. */
  function Int64(x: nat): int {
    var y := x % TWO_64;
    if y >= TWO_64 / 2 then y - TWO_64 else y
  }

  /** The number of bytes that CompactUnmarshal expects for a number of bits. */
  function ExpectedLength(size: Uint64): int {
    Quo(Int64(size + 7), 8)
  }

  function CompactUnmarshal(bz: Bytes): Unmarshalled {
    if |bz| < 2 then Invalid
    else if bz == NULL then Nil
    else
      var (size, n) := UvarintFrom(bz, 0, 0, 0);
      if n < 0 || n > |bz| then Crashes
      else if |bz| - n != ExpectedLength(size) then Invalid
      else Array(size % 8, FromBytes(bz[n..]))
  }

  lemma UvarintStep(bz: Bytes, i: nat, shift: nat, acc: nat)
    requires i < |bz| && acc + bz[i] % 128 * Pow2(shift) < TWO_64
    requires bz[i] < 128 ==> i < 9 || (i == 9 && bz[i] <= 1)
    ensures var v := acc + bz[i] % 128 * Pow2(shift);
            UvarintFrom(bz, i, shift, acc) == if bz[i] < 128 then (v, i + 1) else UvarintFrom(bz, i + 1, shift + 7, v)
  {
    hide Pow2;
    Product(bz[i] % 128, Pow2(shift));
    NoWrap(acc, bz[i] % 128, shift);
    hide Or, Shifted;
  }

  lemma ShiftBound(i: nat, v: nat)
    requires (i == 0 || v > 0) && v * Pow2(7 * i) < TWO_64
    ensures i <= 9 && (i == 9 ==> v <= 1)
  {
    hide Pow2;
    if i > 9 {
      LargeShift(7 * i, v);
    } else if i == 9 && v > 1 {
      TopBit(v);
    }
  }

  lemma {:induction false} UvarintWritten(bz: Bytes, i: nat, v: nat, shift: nat, acc: nat)
    requires StandsAt(bz, i, v) && shift == 7 * i && (i == 0 || v > 0) && acc + v * Pow2(shift) < TWO_64
    ensures UvarintFrom(bz, i, shift, acc) == (acc + v * Pow2(shift), i + |Varint(v)|)
    decreases v
  {
    hide UvarintFrom;
    var p := Pow2(shift);
    ShiftBound(i, v);
    assert bz[i] == Varint(v)[0];
    if v < 128 {
      hide Pow2;
      UvarintStep(bz, i, shift, acc);
    } else {
      StandsNext(bz, i, v);
      Pow2Seven(shift);
      assert |Varint(v)| == 1 + |Varint(v / 128)|;
      hide Pow2, StandsAt, Varint;
      ShiftParts(v, p);
      UvarintStep(bz, i, shift, acc);
      UvarintWritten(bz, i + 1, v / 128, shift + 7, acc + v % 128 * p);
    }
  }

  lemma TopBit(v: nat)
    requires v > 1
    ensures v * Pow2(63) >= TWO_64
  {
    Pow2At64();
    assert Pow2(64) == 2 * Pow2(63);
    hide Pow2;
    AtLeastOnce(v - 1, Pow2(63));
    assert v * Pow2(63) == (v - 1) * Pow2(63) + Pow2(63);
  }

  /** A number of bits that fits an int needs that many bytes. */
  lemma ExpectedBytes(size: nat)
    requires size + 7 < TWO_64 / 2
    ensures ExpectedLength(size) == (size + 7) / 8
  {
  }

  /** An array with bits is restored from its encoding, which is never the one for no bits. */
  lemma RoundTrip(extra: nat, elems: seq<bv8>)
    requires extra < 8 && |elems| > 0 && |elems| * 8 + 7 < TWO_64 / 2
    ensures CompactUnmarshal(Encoded(extra, elems)) == Array(extra, elems)
    ensures Encoded(extra, elems) != NULL
  {
    var size := Count(extra, |elems|);
    assert Encoded(extra, elems) == Varint(size) + ToBytes(elems);
    assert size % 8 == extra && (size + 7) / 8 == |elems|;
    NotNull(size, ToBytes(elems));
    BytesRestored(elems);
    hide CompactUnmarshal, Encoded, Varint, ToBytes, FromBytes;
    Unmarshals(size, ToBytes(elems));
  }

  lemma Unmarshals(size: nat, rest: Bytes)
    requires 0 < size && size + 7 < TWO_64 / 2 && |rest| == (size + 7) / 8
    ensures CompactUnmarshal(Varint(size) + rest) == Array(size % 8, FromBytes(rest))
  {
    var bz := Varint(size) + rest;
    NotNull(size, rest);
    assert StandsAt(bz, 0, size);
    assert size * Pow2(0) == size;
    hide Varint, Pow2, FromBytes, UvarintFrom, ExpectedLength;
    UvarintWritten(bz, 0, size, 0, 0);
    ExpectedBytes(size);
    assert bz[|Varint(size)|..] == rest;
  }

  /** An array without bits is restored as nil. */
  lemma NoBitsRoundTrip(extra: nat, elems: seq<bv8>)
    requires Count(extra, |elems|) <= 0
    ensures CompactUnmarshal(Encoded(extra, elems)) == Nil
  {
  }

  lemma NotNull(size: nat, rest: Bytes)
    requires |rest| == (size + 7) / 8
    ensures Varint(size) + rest != NULL
  {
    assert (Varint(size) + rest)[0] == Varint(size)[0];
    assert NULL[0] == 110;
  }

  // Every input

  /** The varint at the start is complete and exceeds 64 bits. */
  predicate TooLong(bz: Bytes) {
    var k := LastByte(bz, 0);
    k < |bz| && (k > 9 || (k == 9 && bz[9] > 1))
  }

  lemma {:induction false} UvarintLength(bz: Bytes, i: nat, shift: nat, acc: nat)
    requires i <= |bz|
    ensures var k, n := LastByte(bz, i), UvarintFrom(bz, i, shift, acc).1;
            n == if k == |bz| then 0 else if k > 9 || (k == 9 && bz[k] > 1) then -(k + 1) else k + 1
    decreases |bz| - i
  {
    hide Or, Shifted;
    if i < |bz| && bz[i] >= 128 {
      UvarintLength(bz, i + 1, shift + 7, Or(acc, Shifted(bz[i] % 128, shift)));
    }
  }

  /** Exactly which inputs crash: a negative number of bytes read is not looked at before it is used. And
      exactly which are accepted: those whose varint is complete, fits and stands before as many bytes as
      its value asks for. */
  lemma EveryInput(bz: Bytes)
    ensures CompactUnmarshal(bz).Crashes? <==> |bz| >= 2 && bz != NULL && TooLong(bz)
    ensures CompactUnmarshal(bz).Nil? <==> bz == NULL
    ensures var k := LastByte(bz, 0);
            CompactUnmarshal(bz).Array? <==>
            && |bz| >= 2 && bz != NULL && k < |bz| && !TooLong(bz)
            && |bz| - k - 1 == ExpectedLength(UvarintFrom(bz, 0, 0, 0).0)
  {
    UvarintLength(bz, 0, 0, 0);
    hide UvarintFrom, ExpectedLength;
    if |bz| >= 2 && bz != NULL && LastByte(bz, 0) == |bz| {
      NoVarint(bz, 0, 0, 0);
      assert ExpectedLength(0) == 0 by { ExpectedBytes(0); }
    }
  }

  lemma {:induction false} NoVarint(bz: Bytes, i: nat, shift: nat, acc: nat)
    requires i <= |bz| && LastByte(bz, i) == |bz|
    ensures UvarintFrom(bz, i, shift, acc) == (0, 0)
    decreases |bz| - i
  {
    hide Or, Shifted;
    if i < |bz| {
      NoVarint(bz, i + 1, shift + 7, Or(acc, Shifted(bz[i] % 128, shift)));
    }
  }

  /** Ten bytes that crash CompactUnmarshal. */
  lemma CrashingInput()
    ensures CompactUnmarshal([128, 128, 128, 128, 128, 128, 128, 128, 128, 2]) == Crashes
  {
    var bz := [128, 128, 128, 128, 128, 128, 128, 128, 128, 2];
    EveryInput(bz);
    hide CompactUnmarshal;
    var k := LastByte(bz, 0);
    assert k == 9;
  }

  /** What is accepted is a well-formed array, unless 7 added to the number of bits wraps around: then an
      input without any byte behind the number is accepted as an array of less than no bits. */
  lemma AcceptedArrays(bz: Bytes)
    requires CompactUnmarshal(bz).Array?
    ensures var (size, n) := UvarintFrom(bz, 0, 0, 0);
            var a := CompactUnmarshal(bz);
            if size < TWO_64 - 14 then (a.extra > 0 ==> |a.elems| > 0) && Count(a.extra, |a.elems|) == size
            else a.elems == [] && Count(a.extra, 0) <= 0
  {
    hide UvarintFrom, FromBytes, ExpectedLength;
    var (size, n) := UvarintFrom(bz, 0, 0, 0);
    LengthOf(size);
    if size + 7 < TWO_64 / 2 {
      BitsOfLength(size);
    }
  }

  /** Ten bytes that are accepted as an array of less than no bits. */
  lemma AcceptedWithoutBits()
    ensures CompactUnmarshal([255, 255, 255, 255, 255, 255, 255, 255, 255, 1]) == Array(7, [])
    ensures Count(7, 0) == -1
  {
    hide CompactUnmarshal, Varint;
    LargestVarint();
    NoBytesBehind(TWO_64 - 1);
  }

  lemma NoBytesBehind(size: Uint64)
    requires size >= TWO_64 - 14
    ensures CompactUnmarshal(Varint(size)) == Array(size % 8, [])
  {
    var bz := Varint(size);
    assert |bz| > 1 && bz[0] >= 128 && bz != NULL;
    assert StandsAt(bz, 0, size);
    assert size * Pow2(0) == size;
    hide Pow2, Varint, UvarintFrom, ExpectedLength;
    UvarintWritten(bz, 0, size, 0, 0);
    LengthOf(size);
    assert FromBytes(bz[|bz|..]) == [];
  }

  lemma LargestVarint()
    ensures Varint(TWO_64 - 1) == [255, 255, 255, 255, 255, 255, 255, 255, 255, 1]
  {
    hide Varint;
    assert Varint(0x7fff) == [255, 255, 1] by {
      OneByte();
      AllOnes(1);
      AllOnes(0xff);
    }
    assert Varint(0xf_ffff_ffff) == [255, 255, 255, 255, 255, 1] by {
      AllOnes(0x7fff);
      AllOnes(0x3f_ffff);
      AllOnes(0x1fff_ffff);
    }
    assert Varint(0x1ff_ffff_ffff_ffff) == [255, 255, 255, 255, 255, 255, 255, 255, 1] by {
      AllOnes(0xf_ffff_ffff);
      AllOnes(0x7ff_ffff_ffff);
      AllOnes(0x3_ffff_ffff_ffff);
    }
    AllOnes(0x1ff_ffff_ffff_ffff);
  }

  lemma OneByte()
    ensures Varint(1) == [1]
  {
  }

  /** Seven ones below a number are one byte before its varint. */
  lemma AllOnes(v: nat)
    requires v > 0
    ensures Varint(128 * v + 127) == [255] + Varint(v)
  {
  }

  lemma BitsOfLength(size: nat)
    ensures var length := (size + 7) / 8;
            (size % 8 > 0 ==> length > 0) && Count(size % 8, length) == size
  {
  }

  lemma LengthOf(size: Uint64)
    ensures ExpectedLength(size) == if size >= TWO_64 - 14 then 0
                                    else if size + 7 >= TWO_64 / 2 then Quo(size + 7 - TWO_64, 8)
                                    else (size + 7) / 8
    ensures TWO_64 / 2 <= size + 7 < TWO_64 - 7 ==> ExpectedLength(size) < 0
  {
  }
}
