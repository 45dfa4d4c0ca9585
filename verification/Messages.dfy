/** The messages GasInfo and ValAddresses of types/types.pb.go: written backward into a buffer of the
    computed size, and read forward. */
module Messages {
  import opened Basics
  import opened ByteOrder
  import opened Varints
  import opened Wire

  datatype GasInfo = GasInfo(wanted: Uint64, used: Uint64)

  datatype Decoded<T> = Got(value: T) | Failed

  /** The number and wire type of a field, and where it goes on; None for a malformed or illegal tag. */
  datatype FieldTag = FieldTag(num: int, wireType: nat, next: nat)

  /** Conversion of a word to int32. */
  function Int32(x: nat): int {
    var y := x % 0x1_0000_0000;
    if y >= 0x8000_0000 then y - 0x1_0000_0000 else y
  }

  function TagAt(d: Bytes, i: nat): (t: Option<FieldTag>)
    ensures t.Some? ==> i < t.value.next <= |d|
  {
    match ReadFrom(d, i, 0, 0)
    case Read(wire, next) =>
      if wire % 8 == 4 || Int32(wire / 8) <= 0 then None else Some(FieldTag(Int32(wire / 8), wire % 8, next))
    case _ => None
  }

  method ReadFieldTag(d: Bytes, i: nat) returns (t: Option<FieldTag>)
    ensures t == TagAt(d, i)
  {
    var wire := ReadVarint(d, i);
    if !wire.Read? || wire.value % 8 == 4 || Int32(wire.value / 8) <= 0 {
      return None;
    }
    t := Some(FieldTag(Int32(wire.value / 8), wire.value % 8, wire.next));
  }

  /** Where an unknown field that starts at i ends; None if it is malformed or does not fit. */
  function AfterUnknown(d: Bytes, i: nat): (k: Option<nat>)
    requires i <= |d|
    ensures k.Some? ==> i < k.value <= |d|
  {
    match SkipFrom(d[i..], 0, 0)
    case Skipped(n) => if i + n >= TWO_63 || i + n > |d| then None else Some(i + n)
    case SkipFails => None
  }

  method SkipUnknown(d: Bytes, i: nat) returns (k: Option<nat>)
    requires i <= |d| < TWO_63
    ensures k == AfterUnknown(d, i)
  {
    hide SkipFrom;
    var skippy := SkipTypes(d[i..]);
    if skippy.SkipFails? || i + skippy.n >= TWO_63 || i + skippy.n > |d| {
      return None;
    }
    k := Some(i + skippy.n);
  }

  /** A well-formed field that is not a stray end of a group is skipped exactly. */
  lemma UnknownIsSkipped(d: Bytes, i: nat, f: Field)
    requires |d| < TWO_63 && WellFormed(f) && Holds(d, i, Encode(f))
    ensures AfterUnknown(d, i) == Some(i + |Encode(f)|)
  {
    assert d[i..][0..|Encode(f)|] == d[i..i + |Encode(f)|];
    assert Holds(d[i..], 0, Encode(f));
    hide SkipFrom, Encode, WellFormed;
    SkipField(d[i..], 0, f, 0);
  }

  lemma EncodeTag(f: Field)
    ensures |Tag(f.num, WireType(f))| <= |Encode(f)|
    ensures Encode(f)[..|Tag(f.num, WireType(f))|] == Tag(f.num, WireType(f))
  {
    hide Tag;
  }

  /** The tag of a well-formed field is read as it was written. */
  lemma TagIsRead(d: Bytes, i: nat, f: Field)
    requires WellFormed(f) && Holds(d, i, Encode(f))
    ensures TagAt(d, i) == Some(FieldTag(f.num, WireType(f), i + |Tag(f.num, WireType(f))|))
  {
    var tag := Tag(f.num, WireType(f));
    EncodeTag(f);
    TagParts(f.num, WireType(f));
    assert 1 <= f.num < 0x2000_0000;
    hide Encode, ReadFrom, Tag, Holds, Int32, WellFormed;
    assert Encode(f) == tag + Encode(f)[|tag|..];
    HoldsParts(d, i, tag, Encode(f)[|tag|..]);
    ReadTag(d, i, f.num, WireType(f));
  }

  /** An unknown field that is cut off is refused. */
  lemma UnknownIsCut(d: Bytes, i: nat, f: Field)
    requires |d| < TWO_63 && WellFormed(f) && |Encode(f)| < TWO_63 && CutAt(d, i, Encode(f))
    ensures AfterUnknown(d, i).None?
  {
    assert CutAt(d[i..], 0, Encode(f)) by { assert d[i..][0..] == d[i..]; }
    hide SkipFrom, Encode, WellFormed;
    SkipCutField(d[i..], 0, f, 0);
  }

  /** The tag of a field that is cut off is cut off, or is read and the value is cut off. */
  lemma TagIsCut(d: Bytes, i: nat, f: Field)
    requires WellFormed(f) && !f.GroupField? && CutAt(d, i, Encode(f))
    ensures TagAt(d, i).None?
            || (TagAt(d, i) == Some(FieldTag(f.num, WireType(f), i + |Tag(f.num, WireType(f))|))
                && CutAt(d, i + |Tag(f.num, WireType(f))|, ValueOf(f)))
  {
    var tag := Tag(f.num, WireType(f));
    assert Encode(f) == tag + ValueOf(f) by {
      if f.BytesField? {
        assert tag + Varint(|f.data|) + f.data == tag + (Varint(|f.data|) + f.data);
      }
    }
    TagParts(f.num, WireType(f));
    assert 1 <= f.num < 0x2000_0000;
    CutParts(d, i, tag, ValueOf(f));
    if CutAt(d, i, tag) {
      ReadCut(d, i, f.num * 8 + WireType(f), 0, 0);
    } else {
      hide Encode, ReadFrom, Tag, Holds, CutAt, Int32, WellFormed, Varint;
      ReadTag(d, i, f.num, WireType(f));
    }
  }

  /** A tag that starts no field: number 0, the end of a group, or a wire type that does not exist. */
  predicate StartsNothing(num: nat, wireType: nat) {
    num < 0x2000_0000 && wireType < 8 && (num == 0 || wireType == 4 || wireType > 5)
  }

  /** Such a tag is not taken for a field, and not skipped. */
  lemma NothingStarts(d: Bytes, i: nat, num: nat, wireType: nat)
    requires StartsNothing(num, wireType) && Holds(d, i, Tag(num, wireType))
    ensures TagAt(d, i).Some? ==> TagAt(d, i).value.wireType == wireType > 5 && AfterUnknown(d, i).None?
  {
    TagParts(num, wireType);
    assert d[i..][0..|Tag(num, wireType)|] == d[i..i + |Tag(num, wireType)|];
    assert Holds(d[i..], 0, Tag(num, wireType));
    hide ReadFrom, Tag, Holds, Int32;
    ReadTag(d, i, num, wireType);
    ReadTag(d[i..], 0, num, wireType);
  }

  lemma TagParts(num: nat, wireType: nat)
    requires num < 0x2000_0000 && wireType < 8
    ensures (num * 8 + wireType) / 8 == num && (num * 8 + wireType) % 8 == wireType && Int32(num) == num
  {
  }

  // GasInfo

  /** The read loop of GasInfo from index i on. */
  function GasInfoFrom(d: Bytes, i: nat, m: GasInfo): Decoded<GasInfo>
    decreases |d| - i
  {
    if i >= |d| then Got(m)
    else
      match TagAt(d, i)
      case None => Failed
      case Some(tag) =>
        if tag.num == 1 || tag.num == 2 then
          if tag.wireType != 0 then Failed
          else
            match ReadFrom(d, tag.next, 0, 0)
            case Read(v, next) => GasInfoFrom(d, next, if tag.num == 1 then m.(wanted := v) else m.(used := v))
            case _ => Failed
        else
          match AfterUnknown(d, i)
          case None => Failed
          case Some(k) => GasInfoFrom(d, k, m)
  }

  method UnmarshalGasInfo(d: Bytes) returns (r: Decoded<GasInfo>)
    requires |d| < TWO_63
    ensures r == GasInfoFrom(d, 0, GasInfo(0, 0))
  {
    hide AfterUnknown, ReadFrom, TagAt;
    var i, m := 0, GasInfo(0, 0);
    while i < |d|
      invariant 0 <= i <= |d| && GasInfoFrom(d, i, m) == GasInfoFrom(d, 0, GasInfo(0, 0))
    {
      var tag := ReadFieldTag(d, i);
      if tag.None? {
        return Failed;
      }
      var num := tag.value.num;
      if num == 1 || num == 2 {
        if tag.value.wireType != 0 {
          return Failed;
        }
        var value := ReadVarint(d, tag.value.next);
        if !value.Read? {
          return Failed;
        }
        if num == 1 {
          m := m.(wanted := value.value);
        } else {
          m := m.(used := value.value);
        }
        i := value.next;
      } else {
        var k := SkipUnknown(d, i);
        if k.None? {
          return Failed;
        }
        i := k.value;
      }
    }
    r := Got(m);
  }

  /** What a field says about GasInfo; other fields are ignored. */
  function GasUpdate(m: GasInfo, f: Field): GasInfo {
    if f.VarintField? && f.num == 1 then m.(wanted := f.value)
    else if f.VarintField? && f.num == 2 then m.(used := f.value)
    else m
  }

  /** What a message says: the last value of each field counts. */
  function GasMeaning(m: GasInfo, fields: seq<Field>): GasInfo
    decreases |fields|
  {
    if fields == [] then m else GasMeaning(GasUpdate(m, fields[0]), fields[1..])
  }

  /** A field of a GasInfo message of any version: 1 and 2 are varints. */
  ghost predicate GasFieldOk(f: Field) {
    WellFormed(f) && (f.num <= 2 ==> f.VarintField?)
  }

  /** A varint field and its value are read as they were written. */
  lemma ValueIsRead(d: Bytes, i: nat, f: Field)
    requires WellFormed(f) && f.VarintField? && Holds(d, i, Encode(f))
    ensures TagAt(d, i).Some? && TagAt(d, i).value.num == f.num && TagAt(d, i).value.wireType == 0
    ensures ReadFrom(d, TagAt(d, i).value.next, 0, 0) == Read(f.value, i + |Encode(f)|)
  {
    hide ReadFrom, Tag, TagAt, Varint, WellFormed, Holds;
    var tag, value := Tag(f.num, 0), Varint(f.value);
    assert Encode(f) == tag + value;
    hide Encode;
    TagIsRead(d, i, f);
    HoldsParts(d, i, tag, value);
    assert |Encode(f)| == |tag| + |value|;
    ReadAt(d, i + |tag|, f.value);
  }

  lemma GasReads(d: Bytes, i: nat, m: GasInfo, tag: FieldTag, v: Uint64, k: nat)
    requires i < |d| && TagAt(d, i) == Some(tag) && tag.wireType == 0 && (tag.num == 1 || tag.num == 2)
    requires ReadFrom(d, tag.next, 0, 0) == Read(v, k)
    ensures GasInfoFrom(d, i, m) == GasInfoFrom(d, k, if tag.num == 1 then m.(wanted := v) else m.(used := v))
  {
    hide ReadFrom, TagAt;
  }

  lemma GasSkips(d: Bytes, i: nat, m: GasInfo, tag: FieldTag, k: nat)
    requires i < |d| && TagAt(d, i) == Some(tag) && tag.num != 1 && tag.num != 2 && AfterUnknown(d, i) == Some(k)
    ensures GasInfoFrom(d, i, m) == GasInfoFrom(d, k, m)
  {
    hide AfterUnknown, ReadFrom, TagAt;
  }

  lemma GasStep(d: Bytes, i: nat, m: GasInfo, f: Field)
    requires i < |d| < TWO_63 && GasFieldOk(f) && Holds(d, i, Encode(f))
    ensures GasInfoFrom(d, i, m) == GasInfoFrom(d, i + |Encode(f)|, GasUpdate(m, f))
  {
    assert f.num <= 2 ==> f.num == 1 || f.num == 2;
    hide AfterUnknown, Encode, GasInfoFrom, Holds, ReadFrom, Tag, TagAt, WellFormed;
    var k := i + |Encode(f)|;
    if f.num <= 2 {
      ValueIsRead(d, i, f);
      GasReads(d, i, m, TagAt(d, i).value, f.value, k);
    } else {
      TagIsRead(d, i, f);
      UnknownIsSkipped(d, i, f);
      GasSkips(d, i, m, TagAt(d, i).value, k);
    }
  }

  ghost predicate GasFieldsOk(fields: seq<Field>) {
    forall j :: 0 <= j < |fields| ==> GasFieldOk(fields[j])
  }

  lemma GasFieldsOkStep(fields: seq<Field>, m: GasInfo)
    requires GasFieldsOk(fields) && fields != []
    ensures GasFieldOk(fields[0]) && GasFieldsOk(fields[1..])
    ensures EncodeAll(fields) == Encode(fields[0]) + EncodeAll(fields[1..])
    ensures GasMeaning(m, fields) == GasMeaning(GasUpdate(m, fields[0]), fields[1..])
  {
    hide GasFieldOk, Encode, GasUpdate;
  }

  /** Well-formed fields are read one after the other, whatever follows. */
  lemma {:induction false} GasPrefix(d: Bytes, i: nat, m: GasInfo, fields: seq<Field>)
    requires |d| < TWO_63 && Holds(d, i, EncodeAll(fields)) && GasFieldsOk(fields)
    ensures GasInfoFrom(d, i, m) == GasInfoFrom(d, i + |EncodeAll(fields)|, GasMeaning(m, fields))
    decreases |fields|
  {
    hide GasInfoFrom, GasFieldOk, GasFieldsOk, GasUpdate, Encode, Holds;
    if fields != [] {
      var f, rest := fields[0], fields[1..];
      GasFieldsOkStep(fields, m);
      hide EncodeAll, GasMeaning;
      HoldsParts(d, i, Encode(f), EncodeAll(rest));
      HoldsLength(d, i, Encode(f));
      GasStep(d, i, m, f);
      GasPrefix(d, i + |Encode(f)|, GasUpdate(m, f), rest);
    }
  }

  /** Any well-formed message decodes to what its fields say, whatever unknown fields it carries. */
  lemma GasInfoDecodes(d: Bytes, i: nat, m: GasInfo, fields: seq<Field>)
    requires |d| < TWO_63 && i <= |d| && d[i..] == EncodeAll(fields) && GasFieldsOk(fields)
    ensures GasInfoFrom(d, i, m) == Got(GasMeaning(m, fields))
  {
    hide EncodeAll, GasFieldsOk, GasMeaning;
    var b := EncodeAll(fields);
    assert Holds(d, i, b) && i + |b| == |d|;
    hide Holds;
    GasPrefix(d, i, m, fields);
  }

  lemma GasCut(d: Bytes, i: nat, m: GasInfo, f: Field)
    requires i < |d| < TWO_63 && GasFieldOk(f) && |Encode(f)| < TWO_63 && CutAt(d, i, Encode(f))
    ensures GasInfoFrom(d, i, m) == Failed
  {
    assert f.num <= 2 ==> f.num == 1 || f.num == 2;
    hide AfterUnknown, Encode, ReadFrom, Tag, TagAt, WellFormed, CutAt;
    if f.num <= 2 {
      TagIsCut(d, i, f);
      if TagAt(d, i).Some? {
        ReadCut(d, TagAt(d, i).value.next, f.value, 0, 0);
      }
    } else {
      UnknownIsCut(d, i, f);
      UnknownNumber(d, i, f);
    }
  }

  /** A field that is cut off is not taken for another one: its number is read, or nothing. */
  lemma UnknownNumber(d: Bytes, i: nat, f: Field)
    requires WellFormed(f) && CutAt(d, i, Encode(f))
    ensures TagAt(d, i).Some? ==> TagAt(d, i).value.num == f.num && TagAt(d, i).value.wireType == WireType(f)
  {
    var tag := Tag(f.num, WireType(f));
    EncodeTag(f);
    var value := Encode(f)[|tag|..];
    assert Encode(f) == tag + value;
    TagParts(f.num, WireType(f));
    assert 1 <= f.num < 0x2000_0000;
    CutParts(d, i, tag, value);
    if CutAt(d, i, tag) {
      ReadCut(d, i, f.num * 8 + WireType(f), 0, 0);
    } else {
      hide Encode, ReadFrom, Tag, Holds, CutAt, Int32, WellFormed, Varint;
      ReadTag(d, i, f.num, WireType(f));
    }
  }

  /** A message that ends inside a field, known or not, is refused. */
  lemma GasInfoTruncated(d: Bytes, fields: seq<Field>, f: Field)
    requires |d| < TWO_63 && |Encode(f)| < TWO_63 && GasFieldsOk(fields) && GasFieldOk(f)
    requires Holds(d, 0, EncodeAll(fields)) && |EncodeAll(fields)| < |d| && CutAt(d, |EncodeAll(fields)|, Encode(f))
    ensures GasInfoFrom(d, 0, GasInfo(0, 0)) == Failed
  {
    hide EncodeAll, Encode, Holds, CutAt, GasFieldOk, GasFieldsOk, GasMeaning, GasInfoFrom;
    GasPrefix(d, 0, GasInfo(0, 0), fields);
    GasCut(d, |EncodeAll(fields)|, GasMeaning(GasInfo(0, 0), fields), f);
  }

  lemma GasInfoWrong(d: Bytes, i: nat, m: GasInfo, f: Field)
    requires i < |d| && WellFormed(f) && f.num <= 2 && !f.VarintField? && Holds(d, i, Encode(f))
    ensures GasInfoFrom(d, i, m) == Failed
  {
    assert f.num >= 1;
    hide Encode, Holds, ReadFrom, TagAt, AfterUnknown, WellFormed, Tag;
    TagIsRead(d, i, f);
  }

  /** A message with a known field of the wrong wire type is refused, whatever follows. */
  lemma GasInfoWrongType(d: Bytes, fields: seq<Field>, f: Field)
    requires |d| < TWO_63 && GasFieldsOk(fields) && WellFormed(f) && f.num <= 2 && !f.VarintField?
    requires Holds(d, 0, EncodeAll(fields)) && Holds(d, |EncodeAll(fields)|, Encode(f))
    ensures GasInfoFrom(d, 0, GasInfo(0, 0)) == Failed
  {
    hide EncodeAll, Encode, Holds, WellFormed, GasFieldsOk, GasMeaning, GasInfoFrom;
    HoldsLength(d, |EncodeAll(fields)|, Encode(f));
    GasPrefix(d, 0, GasInfo(0, 0), fields);
    GasInfoWrong(d, |EncodeAll(fields)|, GasMeaning(GasInfo(0, 0), fields), f);
  }

  lemma GasInfoStops(d: Bytes, i: nat, m: GasInfo, num: nat, wireType: nat)
    requires i < |d| && StartsNothing(num, wireType) && Holds(d, i, Tag(num, wireType))
    ensures GasInfoFrom(d, i, m) == Failed
  {
    hide ReadFrom, TagAt, AfterUnknown, Tag, Holds;
    NothingStarts(d, i, num, wireType);
  }

  /** A message with a tag that starts no field is refused, whatever follows. */
  lemma GasInfoBadTag(d: Bytes, fields: seq<Field>, num: nat, wireType: nat)
    requires |d| < TWO_63 && GasFieldsOk(fields) && StartsNothing(num, wireType)
    requires Holds(d, 0, EncodeAll(fields)) && Holds(d, |EncodeAll(fields)|, Tag(num, wireType))
    ensures GasInfoFrom(d, 0, GasInfo(0, 0)) == Failed
  {
    hide EncodeAll, Tag, Holds, GasFieldsOk, GasMeaning, GasInfoFrom;
    TagNotEmpty(num, wireType);
    HoldsLength(d, |EncodeAll(fields)|, Tag(num, wireType));
    GasPrefix(d, 0, GasInfo(0, 0), fields);
    GasInfoStops(d, |EncodeAll(fields)|, GasMeaning(GasInfo(0, 0), fields), num, wireType);
  }

  lemma TagNotEmpty(num: nat, wireType: nat)
    ensures Tag(num, wireType) != []
  {
  }

  /** The fields that are written: zeros are left out. */
  function GasFields(m: GasInfo): seq<Field> {
    (if m.wanted != 0 then [VarintField(1, m.wanted)] else [])
    + (if m.used != 0 then [VarintField(2, m.used)] else [])
  }

  method GasInfoSize(m: GasInfo) returns (n: nat)
    ensures n == |EncodeAll(GasFields(m))|
  {
    n := 0;
    if m.wanted != 0 {
      n := n + 1 + Sov(m.wanted);
    }
    if m.used != 0 {
      n := n + 1 + Sov(m.used);
    }
    SovIsLength(m.wanted);
    SovIsLength(m.used);
    GasEncoding(m);
  }

  lemma GasEncoding(m: GasInfo)
    ensures EncodeAll(GasFields(m)) == (if m.wanted != 0 then [8] + Varint(m.wanted) else [])
                                       + (if m.used != 0 then [16] + Varint(m.used) else [])
  {
    var used := if m.used != 0 then [VarintField(2, m.used)] else [];
    assert Tag(1, 0) == [8] && Tag(2, 0) == [16];
    OneField(2, m.used);
    assert EncodeAll(used) == if m.used != 0 then [16] + Varint(m.used) else [];
    if m.wanted != 0 {
      assert GasFields(m)[0] == VarintField(1, m.wanted) && GasFields(m)[1..] == used;
    } else {
      assert GasFields(m) == used;
    }
  }

  lemma OneField(num: nat, v: Uint64)
    ensures EncodeAll([VarintField(num, v)]) == Tag(num, 0) + Varint(v)
  {
    var fields := [VarintField(num, v)];
    assert fields[1..] == [] && EncodeAll(fields[1..]) == [];
  }

  /** Writes a varint field backward, ending in front of the offset. */
  method PutVarintField(a: array<Byte>, offset: nat, tag: Byte, v: nat) returns (start: nat)
    requires 1 + Sov(v) <= offset <= a.Length
    modifies a
    ensures start == offset - 1 - Sov(v)
    ensures a[start..] == [tag] + Varint(v) + old(a[offset..])
  {
    hide Sov, Varint;
    SovIsLength(v);
    var i := EncodeVarint(a, offset, v);
    assert a[i..] == Varint(v) + old(a[offset..]) by {
      assert a[i..] == a[i..offset] + a[offset..];
    }
    start := i - 1;
    a[start] := tag;
    assert a[start..] == [tag] + a[i..];
  }

  /** Marshal: the fields in order, in a buffer of exactly the computed size. */
  method MarshalGasInfo(m: GasInfo) returns (d: Bytes)
    ensures d == EncodeAll(GasFields(m))
  {
    hide EncodeAll, GasFields, Sov, Varint;
    var size := GasInfoSize(m);
    GasEncoding(m);
    SovIsLength(m.wanted);
    SovIsLength(m.used);
    var a := new Byte[size];
    var i := size;
    assert a[i..] == [];
    if m.used != 0 {
      i := PutVarintField(a, i, 16, m.used);
    }
    if m.wanted != 0 {
      i := PutVarintField(a, i, 8, m.wanted);
    }
    d := a[..size - i];
  }

  /** What is marshalled is restored. */
  lemma GasInfoRoundTrip(m: GasInfo)
    ensures GasInfoFrom(EncodeAll(GasFields(m)), 0, GasInfo(0, 0)) == Got(m)
  {
    var d := EncodeAll(GasFields(m));
    assert |d| < TWO_63 by {
      GasEncoding(m);
      TenBytes(m.wanted);
      TenBytes(m.used);
    }
    assert d[0..] == d;
    hide EncodeAll, GasInfoFrom;
    GasInfoDecodes(d, 0, GasInfo(0, 0), GasFields(m));
    MeaningOfFields(m);
  }

  lemma MeaningOfFields(m: GasInfo)
    ensures GasMeaning(GasInfo(0, 0), GasFields(m)) == m
  {
    var zero, fields := GasInfo(0, 0), GasFields(m);
    if m.wanted != 0 {
      assert GasMeaning(zero, fields) == GasMeaning(zero.(wanted := m.wanted), fields[1..]);
      if m.used != 0 {
        assert fields[1..] == [VarintField(2, m.used)] && fields[1..][1..] == [];
      } else {
        assert fields[1..] == [];
      }
    } else if m.used != 0 {
      assert fields == [VarintField(2, m.used)] && fields[1..] == [];
    }
  }

  // ValAddresses

  /** The end of a length-delimited value that starts at j, and where its bytes start. */
  function BytesAt(d: Bytes, j: nat): (r: Option<(nat, nat)>)
    ensures r.Some? ==> j < r.value.0 <= r.value.1 <= |d|
  {
    match ReadFrom(d, j, 0, 0)
    case Read(length, start) =>
      if length >= TWO_63 || start + length >= TWO_63 || start + length > |d| then None
      else Some((start, start + length))
    case _ => None
  }

  method ReadBytes(d: Bytes, j: nat) returns (r: Option<(nat, nat)>)
    ensures r == BytesAt(d, j)
  {
    hide ReadFrom;
    var length := ReadVarint(d, j);
    if !length.Read? || length.value >= TWO_63 {
      return None;
    }
    var postIndex := length.next + length.value;
    if postIndex >= TWO_63 || postIndex > |d| {
      return None;
    }
    r := Some((length.next, postIndex));
  }

  /** The read loop of ValAddresses from index i on. */
  function AddressesFrom(d: Bytes, i: nat, acc: seq<Bytes>): Decoded<seq<Bytes>>
    decreases |d| - i
  {
    if i >= |d| then Got(acc)
    else
      match TagAt(d, i)
      case None => Failed
      case Some(tag) =>
        if tag.num == 1 then
          if tag.wireType != 2 then Failed
          else
            match BytesAt(d, tag.next)
            case None => Failed
            case Some((start, end)) => AddressesFrom(d, end, acc + [d[start..end]])
        else
          match AfterUnknown(d, i)
          case None => Failed
          case Some(k) => AddressesFrom(d, k, acc)
  }

  method UnmarshalValAddresses(d: Bytes) returns (r: Decoded<seq<Bytes>>)
    requires |d| < TWO_63
    ensures r == AddressesFrom(d, 0, [])
  {
    hide AfterUnknown, BytesAt, TagAt;
    var i, addresses: seq<Bytes> := 0, [];
    while i < |d|
      invariant 0 <= i <= |d| && AddressesFrom(d, i, addresses) == AddressesFrom(d, 0, [])
    {
      var tag := ReadFieldTag(d, i);
      if tag.None? {
        return Failed;
      }
      if tag.value.num == 1 {
        if tag.value.wireType != 2 {
          return Failed;
        }
        var range := ReadBytes(d, tag.value.next);
        if range.None? {
          return Failed;
        }
        addresses := addresses + [d[range.value.0..range.value.1]];
        i := range.value.1;
      } else {
        var k := SkipUnknown(d, i);
        if k.None? {
          return Failed;
        }
        i := k.value;
      }
    }
    r := Got(addresses);
  }

  function AddressUpdate(acc: seq<Bytes>, f: Field): seq<Bytes> {
    if f.BytesField? && f.num == 1 then acc + [f.data] else acc
  }

  /** What a message says: the values of field 1, in order. */
  function AddressMeaning(acc: seq<Bytes>, fields: seq<Field>): seq<Bytes>
    decreases |fields|
  {
    if fields == [] then acc else AddressMeaning(AddressUpdate(acc, fields[0]), fields[1..])
  }

  /** A field of a ValAddresses message of any version: 1 is length-delimited. */
  ghost predicate AddressFieldOk(f: Field) {
    WellFormed(f) && (f.num == 1 ==> f.BytesField?)
  }

  /** A length-delimited field is read as it was written. */
  lemma DataIsRead(d: Bytes, i: nat, f: Field)
    requires |d| < TWO_63 && WellFormed(f) && f.BytesField? && Holds(d, i, Encode(f))
    ensures TagAt(d, i).Some? && TagAt(d, i).value.num == f.num && TagAt(d, i).value.wireType == 2
    ensures var end := i + |Encode(f)|;
            |f.data| <= end && BytesAt(d, TagAt(d, i).value.next) == Some((end - |f.data|, end))
            && end <= |d| && d[end - |f.data|..end] == f.data
  {
    TagIsRead(d, i, f);
    var tag, length := Tag(f.num, 2), Varint(|f.data|);
    assert Encode(f) == tag + length + f.data;
    hide BytesAt, Encode, Holds, ReadFrom, Tag, TagAt, Varint, WellFormed;
    HoldsParts(d, i, tag + length, f.data);
    HoldsParts(d, i, tag, length);
    assert |Encode(f)| == |tag| + |length| + |f.data|;
    BytesHeld(d, i + |tag|, f.data);
  }

  lemma BytesHeld(d: Bytes, j: nat, data: Bytes)
    requires |d| < TWO_63 && Holds(d, j, Varint(|data|)) && Holds(d, j + |Varint(|data|)|, data)
    ensures var start := j + |Varint(|data|)|;
            BytesAt(d, j) == Some((start, start + |data|)) && start + |data| <= |d| && d[start..start + |data|] == data
  {
    hide ReadFrom, Varint;
    ReadAt(d, j, |data|);
  }

  lemma AddressReads(d: Bytes, i: nat, acc: seq<Bytes>, tag: FieldTag, start: nat, end: nat)
    requires i < |d| && TagAt(d, i) == Some(tag) && tag.wireType == 2 && tag.num == 1
    requires start <= end <= |d| && BytesAt(d, tag.next) == Some((start, end))
    ensures AddressesFrom(d, i, acc) == AddressesFrom(d, end, acc + [d[start..end]])
  {
    hide BytesAt, TagAt;
  }

  lemma AddressSkips(d: Bytes, i: nat, acc: seq<Bytes>, tag: FieldTag, k: nat)
    requires i < |d| && TagAt(d, i) == Some(tag) && tag.num != 1 && AfterUnknown(d, i) == Some(k)
    ensures AddressesFrom(d, i, acc) == AddressesFrom(d, k, acc)
  {
    hide AfterUnknown, BytesAt, TagAt;
  }

  lemma AddressStep(d: Bytes, i: nat, acc: seq<Bytes>, f: Field)
    requires i < |d| < TWO_63 && AddressFieldOk(f) && Holds(d, i, Encode(f))
    ensures AddressesFrom(d, i, acc) == AddressesFrom(d, i + |Encode(f)|, AddressUpdate(acc, f))
  {
    hide AddressesFrom, AfterUnknown, BytesAt, Encode, Holds, Tag, TagAt, WellFormed;
    var k := i + |Encode(f)|;
    if f.num == 1 {
      DataIsRead(d, i, f);
      AddressReads(d, i, acc, TagAt(d, i).value, k - |f.data|, k);
    } else {
      TagIsRead(d, i, f);
      UnknownIsSkipped(d, i, f);
      AddressSkips(d, i, acc, TagAt(d, i).value, k);
    }
  }

  ghost predicate AddressFieldsOk(fields: seq<Field>) {
    forall j :: 0 <= j < |fields| ==> AddressFieldOk(fields[j])
  }

  lemma AddressFieldsOkStep(fields: seq<Field>, acc: seq<Bytes>)
    requires AddressFieldsOk(fields) && fields != []
    ensures AddressFieldOk(fields[0]) && AddressFieldsOk(fields[1..])
    ensures EncodeAll(fields) == Encode(fields[0]) + EncodeAll(fields[1..])
    ensures AddressMeaning(acc, fields) == AddressMeaning(AddressUpdate(acc, fields[0]), fields[1..])
  {
    hide AddressFieldOk, Encode, AddressUpdate;
  }

  /** Well-formed fields are read one after the other, whatever follows. */
  lemma {:induction false} AddressPrefix(d: Bytes, i: nat, acc: seq<Bytes>, fields: seq<Field>)
    requires |d| < TWO_63 && Holds(d, i, EncodeAll(fields)) && AddressFieldsOk(fields)
    ensures AddressesFrom(d, i, acc) == AddressesFrom(d, i + |EncodeAll(fields)|, AddressMeaning(acc, fields))
    decreases |fields|
  {
    hide AddressesFrom, AddressFieldOk, AddressFieldsOk, AddressUpdate, Encode, Holds;
    if fields != [] {
      var f, rest := fields[0], fields[1..];
      AddressFieldsOkStep(fields, acc);
      hide EncodeAll, AddressMeaning;
      HoldsParts(d, i, Encode(f), EncodeAll(rest));
      HoldsLength(d, i, Encode(f));
      AddressStep(d, i, acc, f);
      AddressPrefix(d, i + |Encode(f)|, AddressUpdate(acc, f), rest);
    }
  }

  /** Any well-formed message decodes to its addresses in order, whatever unknown fields it carries. */
  lemma AddressesDecode(d: Bytes, i: nat, acc: seq<Bytes>, fields: seq<Field>)
    requires |d| < TWO_63 && i <= |d| && d[i..] == EncodeAll(fields) && AddressFieldsOk(fields)
    ensures AddressesFrom(d, i, acc) == Got(AddressMeaning(acc, fields))
  {
    hide EncodeAll, AddressFieldsOk, AddressMeaning;
    var b := EncodeAll(fields);
    assert Holds(d, i, b) && i + |b| == |d|;
    hide Holds;
    AddressPrefix(d, i, acc, fields);
  }

  lemma AddressCut(d: Bytes, i: nat, acc: seq<Bytes>, f: Field)
    requires i < |d| < TWO_63 && AddressFieldOk(f) && |Encode(f)| < TWO_63 && CutAt(d, i, Encode(f))
    ensures AddressesFrom(d, i, acc) == Failed
  {
    hide AfterUnknown, BytesAt, Encode, ReadFrom, Tag, TagAt, WellFormed, CutAt;
    if f.num == 1 {
      TagIsCut(d, i, f);
      if TagAt(d, i).Some? {
        DataIsCut(d, TagAt(d, i).value.next, f);
      }
    } else {
      UnknownIsCut(d, i, f);
      UnknownNumber(d, i, f);
    }
  }

  lemma DataIsCut(d: Bytes, j: nat, f: Field)
    requires WellFormed(f) && f.BytesField? && |Encode(f)| < TWO_63 && CutAt(d, j, ValueOf(f))
    ensures BytesAt(d, j).None?
  {
    ValueCut(d, j, f);
  }

  /** A message that ends inside a field, known or not, is refused. */
  lemma AddressesTruncated(d: Bytes, fields: seq<Field>, f: Field)
    requires |d| < TWO_63 && |Encode(f)| < TWO_63 && AddressFieldsOk(fields) && AddressFieldOk(f)
    requires Holds(d, 0, EncodeAll(fields)) && |EncodeAll(fields)| < |d| && CutAt(d, |EncodeAll(fields)|, Encode(f))
    ensures AddressesFrom(d, 0, []) == Failed
  {
    hide EncodeAll, Encode, Holds, CutAt, AddressFieldOk, AddressFieldsOk, AddressMeaning, AddressesFrom;
    AddressPrefix(d, 0, [], fields);
    AddressCut(d, |EncodeAll(fields)|, AddressMeaning([], fields), f);
  }

  lemma AddressesWrong(d: Bytes, i: nat, acc: seq<Bytes>, f: Field)
    requires i < |d| && WellFormed(f) && f.num == 1 && !f.BytesField? && Holds(d, i, Encode(f))
    ensures AddressesFrom(d, i, acc) == Failed
  {
    assert f.num >= 1;
    hide Encode, Holds, BytesAt, TagAt, AfterUnknown, WellFormed, Tag;
    TagIsRead(d, i, f);
  }

  /** A message with field 1 of the wrong wire type is refused, whatever follows. */
  lemma AddressesWrongType(d: Bytes, fields: seq<Field>, f: Field)
    requires |d| < TWO_63 && AddressFieldsOk(fields) && WellFormed(f) && f.num == 1 && !f.BytesField?
    requires Holds(d, 0, EncodeAll(fields)) && Holds(d, |EncodeAll(fields)|, Encode(f))
    ensures AddressesFrom(d, 0, []) == Failed
  {
    hide EncodeAll, Encode, Holds, WellFormed, AddressFieldsOk, AddressMeaning, AddressesFrom;
    HoldsLength(d, |EncodeAll(fields)|, Encode(f));
    AddressPrefix(d, 0, [], fields);
    AddressesWrong(d, |EncodeAll(fields)|, AddressMeaning([], fields), f);
  }

  lemma AddressesStops(d: Bytes, i: nat, acc: seq<Bytes>, num: nat, wireType: nat)
    requires i < |d| && StartsNothing(num, wireType) && Holds(d, i, Tag(num, wireType))
    ensures AddressesFrom(d, i, acc) == Failed
  {
    hide BytesAt, TagAt, AfterUnknown, Tag, Holds;
    NothingStarts(d, i, num, wireType);
  }

  /** A message with a tag that starts no field is refused, whatever follows. */
  lemma AddressesBadTag(d: Bytes, fields: seq<Field>, num: nat, wireType: nat)
    requires |d| < TWO_63 && AddressFieldsOk(fields) && StartsNothing(num, wireType)
    requires Holds(d, 0, EncodeAll(fields)) && Holds(d, |EncodeAll(fields)|, Tag(num, wireType))
    ensures AddressesFrom(d, 0, []) == Failed
  {
    hide EncodeAll, Tag, Holds, AddressFieldsOk, AddressMeaning, AddressesFrom;
    TagNotEmpty(num, wireType);
    HoldsLength(d, |EncodeAll(fields)|, Tag(num, wireType));
    AddressPrefix(d, 0, [], fields);
    AddressesStops(d, |EncodeAll(fields)|, AddressMeaning([], fields), num, wireType);
  }

  function AddressFields(addresses: seq<Bytes>): seq<Field> {
    seq(|addresses|, i requires 0 <= i < |addresses| => BytesField(1, addresses[i]))
  }

  lemma AddressEncoding(addresses: seq<Bytes>)
    requires addresses != []
    ensures EncodeAll(AddressFields(addresses))
         == [10] + Varint(|addresses[0]|) + addresses[0] + EncodeAll(AddressFields(addresses[1..]))
  {
    assert AddressFields(addresses)[1..] == AddressFields(addresses[1..]);
    assert Tag(1, 2) == [10];
  }

  method ValAddressesSize(addresses: seq<Bytes>) returns (n: nat)
    ensures n == |EncodeAll(AddressFields(addresses))|
  {
    n := 0;
    hide AddressFields, Sov, Varint, EncodeAll;
    assert |EncodeAll(AddressFields(addresses[0..]))| == |EncodeAll(AddressFields(addresses))| by {
      assert addresses[0..] == addresses;
    }
    for k := 0 to |addresses|
      invariant n + |EncodeAll(AddressFields(addresses[k..]))| == |EncodeAll(AddressFields(addresses))|
    {
      assert addresses[k..][1..] == addresses[k + 1..];
      AddressEncoding(addresses[k..]);
      SovIsLength(|addresses[k]|);
      n := n + 1 + |addresses[k]| + Sov(|addresses[k]|);
    }
    assert EncodeAll(AddressFields(addresses[|addresses|..])) == [] by { NoAddresses(addresses[|addresses|..]); }
  }

  lemma NoAddresses(addresses: seq<Bytes>)
    requires addresses == []
    ensures EncodeAll(AddressFields(addresses)) == []
  {
  }

  /** Go's copy of bytes into a buffer. */
  method CopyBytes(a: array<Byte>, at: nat, src: Bytes)
    requires at + |src| <= a.Length
    modifies a
    ensures a[at..at + |src|] == src && a[at + |src|..] == old(a[at + |src|..])
  {
    for i := 0 to |src|
      invariant a[at..at + i] == src[..i] && a[at + |src|..] == old(a[at + |src|..])
    {
      a[at + i] := src[i];
    }
  }

  /** Writes one address backward: its bytes, their number, the tag. */
  method PutAddress(a: array<Byte>, offset: nat, address: Bytes) returns (start: nat)
    requires 1 + Sov(|address|) + |address| <= offset <= a.Length
    modifies a
    ensures start == offset - |address| - Sov(|address|) - 1
    ensures a[start..] == [10] + Varint(|address|) + address + old(a[offset..])
  {
    hide Sov, Varint;
    var i := offset - |address|;
    CopyBytes(a, i, address);
    assert a[i..] == address + old(a[offset..]) by {
      assert a[i..] == a[i..offset] + a[offset..];
    }
    start := PutVarintField(a, i, 10, |address|);
  }

  /** Marshal: the addresses from the last to the first, in a buffer of exactly the computed size. */
  method MarshalValAddresses(addresses: seq<Bytes>) returns (d: Bytes)
    requires |EncodeAll(AddressFields(addresses))| < TWO_63
    ensures d == EncodeAll(AddressFields(addresses))
  {
    hide AddressFields, EncodeAll, Sov, Varint;
    var size := ValAddressesSize(addresses);
    var a := new Byte[size];
    var i, k := size, |addresses|;
    assert EncodeAll(AddressFields(addresses[k..])) == [] by { NoAddresses(addresses[k..]); }
    while k > 0
      invariant 0 <= k <= |addresses| && 0 <= i <= size
      invariant a[i..] == EncodeAll(AddressFields(addresses[k..]))
    {
      AddressesSuffix(addresses, k - 1);
      assert addresses[k - 1..][1..] == addresses[k..];
      AddressEncoding(addresses[k - 1..]);
      SovIsLength(|addresses[k - 1]|);
      k := k - 1;
      i := PutAddress(a, i, addresses[k]);
    }
    assert addresses[0..] == addresses;
    assert i == 0 && a[i..] == a[..size];
    d := a[..size - i];
  }

  /** The encoding of the last addresses is no longer than that of all. */
  lemma {:induction false} AddressesSuffix(addresses: seq<Bytes>, k: nat)
    requires k <= |addresses|
    ensures |EncodeAll(AddressFields(addresses[k..]))| <= |EncodeAll(AddressFields(addresses))|
    decreases k
  {
    hide AddressFields, EncodeAll, Varint;
    if k == 0 {
      assert addresses[0..] == addresses;
    } else {
      AddressEncoding(addresses);
      AddressesSuffix(addresses[1..], k - 1);
      assert addresses[1..][k - 1..] == addresses[k..];
    }
  }

  /** What is marshalled is restored. */
  lemma AddressesRoundTrip(addresses: seq<Bytes>)
    requires |EncodeAll(AddressFields(addresses))| < TWO_63
    ensures AddressesFrom(EncodeAll(AddressFields(addresses)), 0, []) == Got(addresses)
  {
    var d := EncodeAll(AddressFields(addresses));
    assert d[0..] == d;
    hide AddressesFrom, EncodeAll;
    AddressesDecode(d, 0, [], AddressFields(addresses));
    MeaningOfAddresses([], addresses);
    assert [] + addresses == addresses;
  }

  lemma {:induction false} MeaningOfAddresses(acc: seq<Bytes>, addresses: seq<Bytes>)
    ensures AddressMeaning(acc, AddressFields(addresses)) == acc + addresses
    decreases |addresses|
  {
    if addresses != [] {
      assert AddressFields(addresses)[1..] == AddressFields(addresses[1..]);
      MeaningOfAddresses(acc + [addresses[0]], addresses[1..]);
      assert acc + [addresses[0]] + addresses[1..] == acc + addresses;
    } else {
      assert acc + addresses == acc;
    }
  }
}
