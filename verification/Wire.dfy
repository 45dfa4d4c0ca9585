/** The wire format of Protocol Buffers messages, and skipTypes of types/types.pb.go. */
module Wire {
  import opened Basics
  import opened ByteOrder
  import opened Varints

  const TWO_63: int := 0x8000_0000_0000_0000

  // The grammar of messages

  /** A field of a message, by wire type. */
  datatype Field =
    | VarintField(num: nat, value: Uint64)
    | Fixed64Field(num: nat, data: Bytes)
    | BytesField(num: nat, data: Bytes)
    | GroupField(num: nat, fields: seq<Field>)
    | Fixed32Field(num: nat, data: Bytes)

  /** Field numbers have 29 bits, and fixed fields their width. */
  ghost predicate WellFormed(f: Field)
    decreases f
  {
    && 1 <= f.num < 0x2000_0000
    && match f
       case VarintField(_, _) => true
       case Fixed64Field(_, data) => |data| == 8
       case BytesField(_, data) => true
       case GroupField(_, fields) => forall i :: 0 <= i < |fields| ==> WellFormed(fields[i])
       case Fixed32Field(_, data) => |data| == 4
  }

  /** The wire type of a field. */
  function WireType(f: Field): nat {
    match f
    case VarintField(_, _) => 0
    case Fixed64Field(_, _) => 1
    case BytesField(_, _) => 2
    case GroupField(_, _) => 3
    case Fixed32Field(_, _) => 5
  }

  function Tag(num: nat, wireType: nat): Bytes {
    Varint(num * 8 + wireType)
  }

  function Encode(f: Field): (b: Bytes)
    ensures b != []
    decreases f
  {
    match f
    case VarintField(num, value) => Tag(num, 0) + Varint(value)
    case Fixed64Field(num, data) => Tag(num, 1) + data
    case BytesField(num, data) => Tag(num, 2) + Varint(|data|) + data
    case GroupField(num, fields) => Tag(num, 3) + EncodeAll(fields) + Tag(num, 4)
    case Fixed32Field(num, data) => Tag(num, 5) + data
  }

  function EncodeAll(fields: seq<Field>): Bytes
    decreases fields
  {
    if fields == [] then [] else Encode(fields[0]) + EncodeAll(fields[1..])
  }

  // skipTypes

  datatype Skipping = Skipped(n: nat) | SkipFails

  /** The end of the field after its tag, or None if it is malformed. */
  function EndOfValue(d: Bytes, wireType: nat, j: nat): (end: Option<nat>)
    ensures end.Some? ==> end.value >= j
  {
    match wireType
    case 0 =>
      (match ReadFrom(d, j, 0, 0)
       case Read(_, next) => Some(next)
       case _ => None)
    case 1 => Some(j + 8)
    case 2 =>
      (match ReadFrom(d, j, 0, 0)
       case Read(length, next) => if length >= TWO_63 then None else Some(next + length)
       case _ => None)
    case 3 => Some(j)
    case 4 => Some(j)
    case 5 => Some(j + 4)
    case _ => None
  }

  /** Skips one field from index i on, inside a number of open groups. An index beyond 2^63 has wrapped
      around to a negative one. */
  function SkipFrom(d: Bytes, i: nat, depth: nat): (r: Skipping)
    ensures r.Skipped? ==> r.n > i
    decreases |d| - i
  {
    if i >= |d| then SkipFails
    else
      match ReadFrom(d, i, 0, 0)
      case Read(wire, j) =>
        var wireType := wire % 8;
        var end := EndOfValue(d, wireType, j);
        if end.None? || (wireType == 4 && depth == 0) || end.value >= TWO_63 then SkipFails
        else Continue(d, end.value, if wireType == 3 then depth + 1 else if wireType == 4 then depth - 1 else depth, i)
      case _ => SkipFails
  }

  /** At the end of a field outside all groups the work is done. */
  function Continue(d: Bytes, k: nat, depth: nat, ghost i: nat): (r: Skipping)
    requires i < |d| && i < k
    ensures r.Skipped? ==> r.n > i
    decreases |d| - i, 0
  {
    if depth == 0 then Skipped(k) else SkipFrom(d, k, depth)
  }

  method SkipTypes(d: Bytes) returns (r: Skipping)
    requires |d| < TWO_63
    ensures r == SkipFrom(d, 0, 0)
  {
    var i, depth := 0, 0;
    while i < |d|
      invariant SkipFrom(d, i, depth) == SkipFrom(d, 0, 0)
      decreases |d| - i
    {
      var tag := ReadVarint(d, i);
      if !tag.Read? {
        return SkipFails;
      }
      var wireType := tag.value % 8;
      var next := tag.next;
      if wireType == 0 {
        var value := ReadVarint(d, next);
        if !value.Read? {
          return SkipFails;
        }
        next := value.next;
      } else if wireType == 1 {
        next := next + 8;
      } else if wireType == 2 {
        var length := ReadVarint(d, next);
        if !length.Read? || length.value >= TWO_63 {
          return SkipFails;
        }
        next := length.next + length.value;
      } else if wireType == 3 {
        depth := depth + 1;
      } else if wireType == 4 {
        if depth == 0 {
          return SkipFails;
        }
        depth := depth - 1;
      } else if wireType == 5 {
        next := next + 4;
      } else {
        return SkipFails;
      }
      if next >= TWO_63 {
        return SkipFails;
      }
      if depth == 0 {
        return Skipped(next);
      }
      i := next;
    }
    r := SkipFails;
  }

  /** The bytes b stand at index i. */
  ghost predicate Holds(d: Bytes, i: nat, b: Bytes) {
    i + |b| <= |d| && d[i..i + |b|] == b
  }

  lemma HoldsParts(d: Bytes, i: nat, a: Bytes, b: Bytes)
    requires Holds(d, i, a + b)
    ensures Holds(d, i, a) && Holds(d, i + |a|, b)
  {
    var n, m := |a|, |a + b|;
    assert d[i..i + n] == d[i..i + m][..n] == (a + b)[..n] == a;
    assert d[i + n..i + m] == d[i..i + m][n..] == (a + b)[n..] == b;
  }

  lemma ReadAt(d: Bytes, i: nat, v: Uint64)
    requires Holds(d, i, Varint(v))
    ensures ReadFrom(d, i, 0, 0) == Read(v, i + |Varint(v)|)
  {
    assert v * Pow2(0) == v;
    ReadWritten(d, i, v, 0, 0);
  }

  lemma ReadTag(d: Bytes, i: nat, num: nat, wireType: nat)
    requires Holds(d, i, Tag(num, wireType)) && wireType < 8 && num < 0x2000_0000
    ensures ReadFrom(d, i, 0, 0) == Read(num * 8 + wireType, i + |Tag(num, wireType)|)
    ensures (num * 8 + wireType) % 8 == wireType
  {
    hide Varint, ReadFrom;
    ReadAt(d, i, num * 8 + wireType);
  }

  /** One round of skipping, when the tag and the end of the value are known. */
  lemma SkipRound(d: Bytes, i: nat, depth: nat, num: nat, wireType: nat, end: nat)
    requires wireType < 8 && num < 0x2000_0000 && Holds(d, i, Tag(num, wireType))
    requires EndOfValue(d, wireType, i + |Tag(num, wireType)|) == Some(end)
    requires end < TWO_63 && (wireType == 4 ==> depth > 0)
    ensures var after := if wireType == 3 then depth + 1 else if wireType == 4 then depth - 1 else depth;
            SkipFrom(d, i, depth) == if after == 0 then Skipped(end) else SkipFrom(d, end, after)
  {
    hide Varint, ReadFrom, EndOfValue;
    ReadTag(d, i, num, wireType);
  }

  /** A simple field is skipped exactly. */
  lemma SkipSimple(d: Bytes, i: nat, f: Field, depth: nat)
    requires |d| < TWO_63 && WellFormed(f) && !f.GroupField? && Holds(d, i, Encode(f))
    ensures var k := i + |Encode(f)|;
            SkipFrom(d, i, depth) == if depth == 0 then Skipped(k) else SkipFrom(d, k, depth)
  {
    hide Varint, ReadFrom, Holds, SkipFrom, Tag;
    HoldsLength(d, i, Encode(f));
    var k := i + |Encode(f)|;
    match f {
      case VarintField(num, value) =>
        HoldsParts(d, i, Tag(num, 0), Varint(value));
        ReadAt(d, i + |Tag(num, 0)|, value);
        SkipRound(d, i, depth, num, 0, k);
      case Fixed64Field(num, data) =>
        HoldsParts(d, i, Tag(num, 1), data);
        SkipRound(d, i, depth, num, 1, k);
      case BytesField(num, data) =>
        HoldsParts(d, i, Tag(num, 2) + Varint(|data|), data);
        HoldsParts(d, i, Tag(num, 2), Varint(|data|));
        ReadAt(d, i + |Tag(num, 2)|, |data|);
        SkipRound(d, i, depth, num, 2, k);
      case Fixed32Field(num, data) =>
        HoldsParts(d, i, Tag(num, 5), data);
        SkipRound(d, i, depth, num, 5, k);
    }
  }

  lemma HoldsLength(d: Bytes, i: nat, b: Bytes)
    requires Holds(d, i, b)
    ensures i + |b| <= |d|
  {
  }

  /** Every well-formed field, groups included, is skipped exactly. */
  lemma {:induction false} SkipField(d: Bytes, i: nat, f: Field, depth: nat)
    requires |d| < TWO_63 && WellFormed(f) && Holds(d, i, Encode(f))
    ensures var k := i + |Encode(f)|;
            SkipFrom(d, i, depth) == if depth == 0 then Skipped(k) else SkipFrom(d, k, depth)
    decreases f, 1
  {
    if f.GroupField? {
      SkipGroup(d, i, f, depth);
    } else {
      SkipSimple(d, i, f, depth);
    }
  }

  lemma {:induction false} SkipGroup(d: Bytes, i: nat, f: Field, depth: nat)
    requires |d| < TWO_63 && WellFormed(f) && f.GroupField? && Holds(d, i, Encode(f))
    ensures var k := i + |Encode(f)|;
            SkipFrom(d, i, depth) == if depth == 0 then Skipped(k) else SkipFrom(d, k, depth)
    decreases f, 0
  {
    hide SkipFrom;
    var opening, inside, closing := Tag(f.num, 3), EncodeAll(f.fields), Tag(f.num, 4);
    assert Encode(f) == opening + inside + closing;
    hide Varint, ReadFrom, Holds, SkipFrom, Tag, Encode, EncodeAll;
    HoldsLength(d, i, Encode(f));
    HoldsParts(d, i, opening + inside, closing);
    HoldsParts(d, i, opening, inside);
    var j := i + |opening|;
    SkipRound(d, i, depth, f.num, 3, j);
    SkipFields(d, j, f.fields, depth + 1);
    SkipRound(d, j + |inside|, depth + 1, f.num, 4, i + |Encode(f)|);
  }

  lemma {:induction false} SkipFields(d: Bytes, i: nat, fields: seq<Field>, depth: nat)
    requires |d| < TWO_63 && depth > 0 && Holds(d, i, EncodeAll(fields))
    requires forall j :: 0 <= j < |fields| ==> WellFormed(fields[j])
    ensures SkipFrom(d, i, depth) == SkipFrom(d, i + |EncodeAll(fields)|, depth)
    decreases fields
  {
    hide SkipFrom;
    if fields != [] {
      var first, rest := Encode(fields[0]), EncodeAll(fields[1..]);
      assert EncodeAll(fields) == first + rest;
      assert forall j :: 0 <= j < |fields[1..]| ==> fields[1..][j] == fields[j + 1];
      hide Holds, Encode, EncodeAll, WellFormed;
      HoldsParts(d, i, first, rest);
      SkipField(d, i, fields[0], depth);
      SkipFields(d, i + |first|, fields[1..], depth);
    }
  }

  // Input that ends inside a field

  /** The input ends with a proper part of the bytes. */
  ghost predicate CutAt(d: Bytes, i: nat, b: Bytes) {
    i <= |d| && |d| - i < |b| && d[i..] == b[..|d| - i]
  }

  /** A varint that is cut off is not read. */
  lemma {:induction false} ReadCut(d: Bytes, i: nat, v: nat, shift: nat, acc: nat)
    requires CutAt(d, i, Varint(v))
    ensures !ReadFrom(d, i, shift, acc).Read?
    decreases |d| - i
  {
    hide Or, Shifted;
    if i < |d| {
      var rest := Varint(v)[1..];
      assert d[i] == d[i..][0] == Varint(v)[0];
      assert v >= 128 && rest == Varint(v / 128);
      assert d[i + 1..] == d[i..][1..] == rest[..|d| - i - 1];
      if shift < 64 {
        ReadCut(d, i + 1, v / 128, shift + 7, Or(acc, Shifted(d[i] % 128, shift)));
      }
    }
  }

  /** Either the first part is cut off, or it is there and the second is cut off. */
  lemma CutParts(d: Bytes, i: nat, a: Bytes, b: Bytes)
    requires CutAt(d, i, a + b)
    ensures CutAt(d, i, a) || (Holds(d, i, a) && CutAt(d, i + |a|, b))
  {
    var n := |d| - i;
    if n < |a| {
      assert (a + b)[..n] == a[..n];
    } else {
      assert d[i..i + |a|] == d[i..][..|a|] == (a + b)[..n][..|a|] == a;
      assert d[i + |a|..] == d[i..][|a|..] == (a + b)[..n][|a|..] == b[..n - |a|];
    }
  }

  lemma CutLength(d: Bytes, i: nat, b: Bytes)
    requires CutAt(d, i, b)
    ensures i <= |d| < i + |b|
  {
  }

  /** Nothing is skipped, or more than there is. */
  predicate Refused(d: Bytes, r: Skipping) {
    r.Skipped? ==> r.n > |d|
  }

  lemma SkipPastEnd(d: Bytes, i: nat, depth: nat)
    requires i >= |d|
    ensures SkipFrom(d, i, depth) == SkipFails
  {
  }

  lemma SkipCutTag(d: Bytes, i: nat, num: nat, wireType: nat, depth: nat)
    requires CutAt(d, i, Tag(num, wireType))
    ensures SkipFrom(d, i, depth) == SkipFails
  {
    ReadCut(d, i, num * 8 + wireType, 0, 0);
    hide ReadFrom, CutAt, Varint;
  }

  /** The tag is there, and the value is malformed or ends behind the input. */
  lemma SkipCutValue(d: Bytes, i: nat, num: nat, wireType: nat, depth: nat)
    requires wireType < 8 && wireType != 3 && wireType != 4 && num < 0x2000_0000 && Holds(d, i, Tag(num, wireType))
    requires var end := EndOfValue(d, wireType, i + |Tag(num, wireType)|); end.Some? ==> end.value > |d|
    ensures Refused(d, SkipFrom(d, i, depth))
  {
    hide Varint, ReadFrom, EndOfValue, Holds, Tag;
    ReadTag(d, i, num, wireType);
    var end := EndOfValue(d, wireType, i + |Tag(num, wireType)|);
    if end.Some? {
      SkipPastEnd(d, end.value, depth);
    }
  }

  lemma SkipCutSimple(d: Bytes, i: nat, f: Field, depth: nat)
    requires WellFormed(f) && !f.GroupField? && |Encode(f)| < TWO_63 && CutAt(d, i, Encode(f))
    ensures Refused(d, SkipFrom(d, i, depth))
  {
    var tag := Tag(f.num, WireType(f));
    var value := ValueOf(f);
    assert Encode(f) == tag + value by {
      if f.BytesField? {
        assert Tag(f.num, 2) + Varint(|f.data|) + f.data == Tag(f.num, 2) + (Varint(|f.data|) + f.data);
      }
    }
    hide Tag, Encode, CutAt, SkipFrom, ReadFrom, Varint, Holds;
    CutParts(d, i, tag, value);
    if CutAt(d, i, tag) {
      SkipCutTag(d, i, f.num, WireType(f), depth);
    } else {
      ValueCut(d, i + |tag|, f);
      SkipCutValue(d, i, f.num, WireType(f), depth);
    }
  }

  /** What stands behind the tag of a simple field. */
  function ValueOf(f: Field): Bytes
    requires !f.GroupField?
  {
    match f
    case VarintField(_, value) => Varint(value)
    case Fixed64Field(_, data) => data
    case BytesField(_, data) => Varint(|data|) + data
    case Fixed32Field(_, data) => data
  }

  lemma ValueCut(d: Bytes, j: nat, f: Field)
    requires WellFormed(f) && !f.GroupField? && |ValueOf(f)| < TWO_63 && CutAt(d, j, ValueOf(f))
    ensures var end := EndOfValue(d, WireType(f), j); end.Some? ==> end.value > |d|
  {
    match f {
      case VarintField(_, value) => ReadCut(d, j, value, 0, 0);
      case BytesField(_, data) =>
        CutParts(d, j, Varint(|data|), data);
        if CutAt(d, j, Varint(|data|)) {
          ReadCut(d, j, |data|, 0, 0);
        } else {
          CutLength(d, j + |Varint(|data|)|, data);
          hide CutAt, ReadFrom, Varint;
          ReadAt(d, j, |data|);
        }
      case Fixed64Field(_, data) => CutLength(d, j, data);
      case Fixed32Field(_, data) => CutLength(d, j, data);
    }
  }

  /** A well-formed field that is cut off is not skipped within the input, groups included. */
  lemma {:induction false} SkipCutField(d: Bytes, i: nat, f: Field, depth: nat)
    requires |d| < TWO_63 && WellFormed(f) && |Encode(f)| < TWO_63 && CutAt(d, i, Encode(f))
    ensures Refused(d, SkipFrom(d, i, depth))
    decreases f, 1
  {
    if f.GroupField? {
      SkipCutGroup(d, i, f, depth);
    } else {
      SkipCutSimple(d, i, f, depth);
    }
  }

  lemma {:induction false} SkipCutGroup(d: Bytes, i: nat, f: Field, depth: nat)
    requires |d| < TWO_63 && WellFormed(f) && f.GroupField? && |Encode(f)| < TWO_63 && CutAt(d, i, Encode(f))
    ensures Refused(d, SkipFrom(d, i, depth))
    decreases f, 0
  {
    var opening, inside, closing := Tag(f.num, 3), EncodeAll(f.fields), Tag(f.num, 4);
    assert Encode(f) == opening + (inside + closing) by {
      assert opening + inside + closing == opening + (inside + closing);
    }
    hide Varint, ReadFrom, Holds, SkipFrom, Tag, Encode, EncodeAll, CutAt;
    CutParts(d, i, opening, inside + closing);
    if CutAt(d, i, opening) {
      SkipCutTag(d, i, f.num, 3, depth);
    } else {
      HoldsLength(d, i, opening);
      var j := i + |opening|;
      SkipRound(d, i, depth, f.num, 3, j);
      SkipCutFields(d, j, f.fields, f.num, depth + 1);
    }
  }

  /** The rest of a group that is cut off. */
  lemma {:induction false} SkipCutFields(d: Bytes, i: nat, fields: seq<Field>, num: nat, depth: nat)
    requires |d| < TWO_63 && depth > 0 && |EncodeAll(fields)| < TWO_63 && CutAt(d, i, EncodeAll(fields) + Tag(num, 4))
    requires forall j :: 0 <= j < |fields| ==> WellFormed(fields[j])
    ensures Refused(d, SkipFrom(d, i, depth))
    decreases fields
  {
    if fields == [] {
      assert EncodeAll(fields) + Tag(num, 4) == Tag(num, 4);
      SkipCutTag(d, i, num, 4, depth);
    } else {
      var first, rest := Encode(fields[0]), EncodeAll(fields[1..]);
      assert EncodeAll(fields) + Tag(num, 4) == first + (rest + Tag(num, 4));
      assert |EncodeAll(fields)| == |first| + |rest|;
      assert forall j :: 0 <= j < |fields[1..]| ==> fields[1..][j] == fields[j + 1];
      hide Holds, Encode, EncodeAll, WellFormed, CutAt, SkipFrom, Tag;
      CutParts(d, i, first, rest + Tag(num, 4));
      if CutAt(d, i, first) {
        SkipCutField(d, i, fields[0], depth);
      } else {
        SkipField(d, i, fields[0], depth);
        SkipCutFields(d, i + |first|, fields[1..], num, depth);
      }
    }
  }
}
