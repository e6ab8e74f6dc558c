/**
 Records of the Protocol Buffers wire format, after the Encoding guide: "Base 128 Varints",
 "Message Structure", "Length-Delimited Records" and "Groups".
 */
module Wire {
  import opened Types
  import opened Sequences

  const MAX_FIELD_NUMBER := 0x7fff_ffff
  const TWO_64 := 0x1_0000_0000_0000_0000

  const VARINT := 0
  const FIXED64 := 1
  const BYTES := 2
  const START_GROUP := 3
  const END_GROUP := 4
  const FIXED32 := 5

  type Data = seq<Byte>

  /** A value read and the number of bytes it took. */
  datatype Varint = Varint(value: nat, size: nat)

  datatype Tag = Tag(number: nat, typ: nat, size: nat)

  /** One field; `body` is the payload of a length-delimited field and the raw value of any other. */
  datatype Record = Record(number: nat, typ: nat, body: Data)

  // ----- reading -----

  /** 2 to the power 64 - 7k, for k up to 9. */
  function Room(k: nat): (r: nat)
    requires k < 10
    ensures r >= 2 && (k < 9 ==> r >= 256)
    decreases 10 - k
  {
    if k == 9 then 2 else 128 * Room(k + 1)
  }

  /**
   The varint whose k first bytes have been read: seven bits a byte, low bits first, at most ten bytes and 64 bits.
   */
  function VarintFrom(data: Data, k: nat): (r: Option<Varint>)
    requires k < 10
    ensures r.Some? ==> 0 < r.value.size <= |data| && r.value.value < Room(k)
    decreases 10 - k
  {
    if data == [] then None
    else
      var b := data[0] as nat;
      if b < 128 then (if k == 9 && b > 1 then None else Some(Varint(b, 1)))
      else if k == 9 then None
      else
        match VarintFrom(data[1..], k + 1)
        case None => None
        case Some(rest) => Some(Varint(b - 128 + 128 * rest.value, 1 + rest.size))
  }

  function ConsumeVarint(data: Data): (r: Option<Varint>)
    ensures r.Some? ==> 0 < r.value.size <= |data|
  {
    VarintFrom(data, 0)
  }

  function ConsumeTag(data: Data): (r: Option<Tag>)
    ensures r.Some? ==> 0 < r.value.size <= |data| && 0 < r.value.number <= MAX_FIELD_NUMBER && r.value.typ < 8
  {
    match ConsumeVarint(data)
    case None => None
    case Some(v) =>
      if v.value / 8 == 0 || v.value / 8 > MAX_FIELD_NUMBER then None else Some(Tag(v.value / 8, v.value % 8, v.size))
  }

  /** A length and that many bytes; the result is where the bytes start and where they end. */
  function ConsumeBytes(data: Data): (r: Option<(nat, nat)>)
    ensures r.Some? ==> 0 < r.value.0 <= r.value.1 <= |data|
  {
    match ConsumeVarint(data)
    case None => None
    case Some(v) => if v.size + v.value <= |data| then Some((v.size, v.size + v.value)) else None
  }

  /** How many bytes the value of a field takes. */
  function ConsumeFieldValue(number: nat, typ: nat, data: Data): (r: Option<nat>)
    ensures r.Some? ==> r.value <= |data|
    decreases |data|, 1
  {
    if typ == VARINT then (match ConsumeVarint(data) case None => None case Some(v) => Some(v.size))
    else if typ == FIXED64 then (if |data| < 8 then None else Some(8))
    else if typ == BYTES then (match ConsumeBytes(data) case None => None case Some(b) => Some(b.1))
    else if typ == START_GROUP then ConsumeGroup(number, data)
    else if typ == FIXED32 then (if |data| < 4 then None else Some(4))
    else None
  }

  /** The fields of a group, up to and with its end tag. */
  function ConsumeGroup(number: nat, data: Data): (r: Option<nat>)
    ensures r.Some? ==> r.value <= |data|
    decreases |data|, 0
  {
    match ConsumeTag(data)
    case None => None
    case Some(t) =>
      if t.typ == END_GROUP then (if t.number == number then Some(t.size) else None)
      else
        match ConsumeFieldValue(t.number, t.typ, data[t.size..])
        case None => None
        case Some(n) =>
          match ConsumeGroup(number, data[t.size + n..])
          case None => None
          case Some(m) => Some(t.size + n + m)
  }

  /** What the value bytes of a field carry. */
  function Body(typ: nat, value: Data): Data {
    if typ != BYTES then value
    else
      match ConsumeBytes(value)
      case None => value
      case Some(b) => value[b.0..b.1]
  }

  function RecordOf(t: Tag, data: Data, n: nat): Record
    requires t.size + n <= |data|
  {
    Record(t.number, t.typ, Body(t.typ, data[t.size..][..n]))
  }

  /** The first record of the data and its size. */
  function FirstRecord(data: Data): (r: Option<(Record, nat)>)
    ensures r.Some? ==> 0 < r.value.1 <= |data|
  {
    match ConsumeTag(data)
    case None => None
    case Some(t) =>
      match ConsumeFieldValue(t.number, t.typ, data[t.size..])
      case None => None
      case Some(n) => Some((RecordOf(t, data, n), t.size + n))
  }

  /** The data as a sequence of records, when that is what it is. */
  function Records(data: Data): Option<seq<Record>> {
    if data == [] then Some([])
    else
      match FirstRecord(data)
      case None => None
      case Some(first) => Prepend([first.0], Records(data[first.1..]))
  }

  function Prepend(rs: seq<Record>, rest: Option<seq<Record>>): Option<seq<Record>> {
    if rest.None? then None else Some(rs + rest.value)
  }

  // ----- what follows does not change what was read -----

  lemma {:induction false} VarintPrefix(a: Data, b: Data, k: nat)
    requires k < 10 && VarintFrom(a, k).Some?
    ensures VarintFrom(a + b, k) == VarintFrom(a, k)
    decreases 10 - k
  {
    if a[0] >= 128 {
      DropConcat(a, b, 1);
      VarintPrefix(a[1..], b, k + 1);
    }
  }

  lemma TagPrefix(a: Data, b: Data)
    requires ConsumeTag(a).Some?
    ensures ConsumeTag(a + b) == ConsumeTag(a)
  {
    VarintPrefix(a, b, 0);
  }

  lemma {:induction false} ValuePrefix(number: nat, typ: nat, a: Data, b: Data)
    requires ConsumeFieldValue(number, typ, a).Some?
    ensures ConsumeFieldValue(number, typ, a + b) == ConsumeFieldValue(number, typ, a)
    decreases |a|, 1
  {
    if typ == VARINT || typ == BYTES {
      VarintPrefix(a, b, 0);
    } else if typ == START_GROUP {
      GroupPrefix(number, a, b);
    }
  }

  lemma GroupGoesOn(number: nat, data: Data, t: Tag, n: nat)
    requires ConsumeTag(data) == Some(t) && t.typ != END_GROUP
    requires ConsumeFieldValue(t.number, t.typ, data[t.size..]) == Some(n)
    ensures t.size + n <= |data|
    ensures var rest := ConsumeGroup(number, data[t.size + n..]);
      ConsumeGroup(number, data) == if rest.None? then None else Some(t.size + n + rest.value)
  {
    hide ConsumeTag, ConsumeFieldValue;
  }

  lemma {:induction false} GroupPrefix(number: nat, a: Data, b: Data)
    requires ConsumeGroup(number, a).Some?
    ensures ConsumeGroup(number, a + b) == ConsumeGroup(number, a)
    decreases |a|, 0
  {
    hide ConsumeTag, ConsumeFieldValue;
    TagPrefix(a, b);
    var t := ConsumeTag(a).value;
    if t.typ != END_GROUP {
      var n := ConsumeFieldValue(t.number, t.typ, a[t.size..]).value;
      DropConcat(a, b, t.size);
      ValuePrefix(t.number, t.typ, a[t.size..], b);
      GroupGoesOn(number, a, t, n);
      DropConcat(a, b, t.size + n);
      GroupPrefix(number, a[t.size + n..], b);
      GroupGoesOn(number, a + b, t, n);
    }
  }

  lemma FirstPrefix(a: Data, b: Data)
    requires FirstRecord(a).Some?
    ensures FirstRecord(a + b) == FirstRecord(a)
  {
    hide ConsumeTag, ConsumeFieldValue;
    TagPrefix(a, b);
    var t := ConsumeTag(a).value;
    var n := ConsumeFieldValue(t.number, t.typ, a[t.size..]).value;
    DropConcat(a, b, t.size);
    ValuePrefix(t.number, t.typ, a[t.size..], b);
    DropConcat(a[t.size..], b, n);
  }

  /** Concatenated messages are the concatenation of their records. */
  lemma {:induction false} RecordsConcat(a: Data, b: Data)
    requires Records(a).Some?
    ensures Records(a + b) == Prepend(Records(a).value, Records(b))
  {
    if a == [] {
      assert a + b == b;
      assert Records(b).Some? ==> [] + Records(b).value == Records(b).value;
    } else {
      FirstPrefix(a, b);
      var first := FirstRecord(a).value;
      DropConcat(a, b, first.1);
      RecordsConcat(a[first.1..], b);
      PrependTwice([first.0], Records(a[first.1..]).value, Records(b));
    }
  }

  lemma PrependTwice(r: seq<Record>, rs: seq<Record>, rest: Option<seq<Record>>)
    ensures Prepend(r, Prepend(rs, rest)) == Prepend(r + rs, rest)
  {
    if rest.Some? { assert r + (rs + rest.value) == (r + rs) + rest.value; }
  }

  // ----- writing -----

  function AppendVarint(v: nat): (data: Data)
    ensures data != []
  {
    if v < 128 then [v as Byte] else [(v % 128 + 128) as Byte] + AppendVarint(v / 128)
  }

  function AppendTag(number: nat, typ: nat): Data {
    AppendVarint(8 * number + typ)
  }

  function AppendBytes(body: Data): Data {
    AppendVarint(|body|) + body
  }

  lemma {:induction false} VarintIsShort(v: nat, k: nat)
    requires k < 10 && v < Room(k)
    ensures |AppendVarint(v)| <= 10 - k
    decreases 10 - k
  {
    if v >= 128 { VarintIsShort(v / 128, k + 1); }
  }

  lemma {:induction false} VarintRoundTrip(v: nat, k: nat, rest: Data)
    requires k < 10 && v < Room(k)
    ensures VarintFrom(AppendVarint(v) + rest, k) == Some(Varint(v, |AppendVarint(v)|))
    decreases 10 - k
  {
    var data := AppendVarint(v) + rest;
    if v >= 128 {
      assert data[1..] == AppendVarint(v / 128) + rest;
      VarintRoundTrip(v / 128, k + 1, rest);
    }
  }

  lemma TagRoundTrip(number: nat, typ: nat, rest: Data)
    requires 0 < number <= MAX_FIELD_NUMBER && typ < 8
    ensures ConsumeTag(AppendTag(number, typ) + rest) == Some(Tag(number, typ, |AppendTag(number, typ)|))
  {
    RoomIs64();
    VarintRoundTrip(8 * number + typ, 0, rest);
  }

  lemma RoomIs64()
    ensures Room(0) == TWO_64
  {
    assert Room(9) == 2 && Room(8) == 256 && Room(7) == 128 * 256;
    assert Room(6) == 128 * Room(7) && Room(5) == 128 * Room(6) && Room(4) == 128 * Room(5);
    assert Room(3) == 128 * Room(4) && Room(2) == 128 * Room(3) && Room(1) == 128 * Room(2);
  }

  /** A field starts with its tag and goes on with its value. */
  lemma FieldReads(tag: Data, value: Data, rest: Data, t: Tag)
    requires ConsumeTag(tag + (value + rest)) == Some(t) && t.size == |tag|
    requires ConsumeFieldValue(t.number, t.typ, value + rest) == Some(|value|)
    ensures FirstRecord((tag + value) + rest) == Some((Record(t.number, t.typ, Body(t.typ, value)), |tag + value|))
  {
    hide ConsumeTag, ConsumeFieldValue;
    var data := (tag + value) + rest;
    Regroup(tag, value, rest);
    FirstIs(data, t, |value|);
  }

  lemma Regroup(tag: Data, value: Data, rest: Data)
    ensures (tag + value) + rest == tag + (value + rest)
    ensures ((tag + value) + rest)[|tag|..] == value + rest
    ensures (value + rest)[..|value|] == value
  {
  }

  lemma FirstIs(data: Data, t: Tag, n: nat)
    requires ConsumeTag(data) == Some(t) && ConsumeFieldValue(t.number, t.typ, data[t.size..]) == Some(n)
    ensures t.size + n <= |data| && FirstRecord(data) == Some((RecordOf(t, data, n), t.size + n))
  {
    hide ConsumeTag, ConsumeFieldValue;
  }

  /** A length-delimited field is read back as one record, whatever follows it. */
  lemma BytesFieldRoundTrip(number: nat, body: Data, rest: Data)
    requires 0 < number <= MAX_FIELD_NUMBER && |body| < TWO_64
    ensures var field := AppendTag(number, BYTES) + AppendBytes(body);
      FirstRecord(field + rest) == Some((Record(number, BYTES, body), |field|))
  {
    var tag, value := AppendTag(number, BYTES), AppendBytes(body);
    TagRoundTrip(number, BYTES, value + rest);
    BytesValueRoundTrip(body, rest);
    BytesValueRoundTrip(body, []);
    assert value + [] == value;
    FieldReads(tag, value, rest, Tag(number, BYTES, |tag|));
  }

  lemma BytesValueRoundTrip(body: Data, rest: Data)
    requires |body| < TWO_64
    ensures var value := AppendBytes(body);
      ConsumeBytes(value + rest) == Some((|value| - |body|, |value|))
      && (value + rest)[|value| - |body|..|value|] == body
  {
    RoomIs64();
    var len := AppendVarint(|body|);
    assert AppendBytes(body) + rest == len + (body + rest);
    VarintRoundTrip(|body|, 0, body + rest);
  }

  lemma VarintFieldRoundTrip(number: nat, v: nat, rest: Data)
    requires 0 < number <= MAX_FIELD_NUMBER && v < TWO_64
    ensures var field := AppendTag(number, VARINT) + AppendVarint(v);
      FirstRecord(field + rest) == Some((Record(number, VARINT, AppendVarint(v)), |field|))
  {
    var tag, value := AppendTag(number, VARINT), AppendVarint(v);
    RoomIs64();
    TagRoundTrip(number, VARINT, value + rest);
    VarintRoundTrip(v, 0, rest);
    FieldReads(tag, value, rest, Tag(number, VARINT, |tag|));
  }

  // ----- the bytes themselves -----

  function PowerOf128(n: nat): nat {
    if n == 0 then 1 else 128 * PowerOf128(n - 1)
  }

  /** Seven bits a byte: the byte at place n counts 128 to the power n. */
  function Digits(ds: Data): nat {
    if ds == [] then 0 else Digits(ds[..|ds| - 1]) + (ds[|ds| - 1] as nat % 128) * PowerOf128(|ds| - 1)
  }

  /** Every byte but the last has its high bit set, and the last has not. */
  predicate OneVarint(ds: Data) {
    && ds != [] && ds[|ds| - 1] < 128
    && forall i :: 0 <= i < |ds| - 1 ==> ds[i] >= 128
  }

  lemma {:induction false} DigitsFront(ds: Data)
    requires ds != []
    ensures Digits(ds) == ds[0] as nat % 128 + 128 * Digits(ds[1..])
  {
    var n := |ds|;
    if n == 1 {
      assert ds[..0] == [] && Digits(ds[..0]) == 0 && Digits(ds[1..]) == 0 && PowerOf128(0) == 1;
    } else {
      DigitsFront(ds[..n - 1]);
      assert ds[..n - 1][1..] == ds[1..][..n - 2];
      assert PowerOf128(n - 1) == 128 * PowerOf128(n - 2);
      Distributes(Digits(ds[1..][..n - 2]), ds[n - 1] as nat % 128, PowerOf128(n - 2));
    }
  }

  lemma Distributes(a: nat, d: nat, p: nat)
    ensures 128 * a + d * (128 * p) == 128 * (a + d * p)
  {
  }

  /** At most ten bytes, k of them already read, and of the tenth only the lowest bit. */
  predicate Fits(data: Data, k: nat, size: nat)
    requires 0 < size <= |data|
  {
    k + size < 10 || (k + size == 10 && data[size - 1] <= 1)
  }

  lemma {:induction false} VarintFromBytes(data: Data, k: nat, size: nat)
    requires k < 10 && 0 < size <= |data| && OneVarint(data[..size])
    ensures VarintFrom(data, k) == if Fits(data, k, size) then Some(Varint(Digits(data[..size]), size)) else None
    decreases size
  {
    hide OneVarint, Digits, VarintFrom;
    VarintNext(data, k);
    if size == 1 {
      OneByte(data);
    } else {
      BytesBehind(data, size);
      if k < 9 { VarintFromBytes(data[1..], k + 1, size - 1); }
    }
  }

  /** The first byte ends the varint, or the bytes behind it go on. */
  lemma VarintNext(data: Data, k: nat)
    requires k < 10 && data != []
    ensures data[0] < 128 ==>
      VarintFrom(data, k) == if k == 9 && data[0] > 1 then None else Some(Varint(data[0] as nat, 1))
    ensures data[0] >= 128 && k == 9 ==> VarintFrom(data, k).None?
    ensures data[0] >= 128 && k < 9 ==>
      var rest := VarintFrom(data[1..], k + 1);
      VarintFrom(data, k) == if rest.None? then None
                             else Some(Varint(data[0] as nat - 128 + 128 * rest.value.value, 1 + rest.value.size))
  {
  }

  lemma OneByte(data: Data)
    requires |data| >= 1 && OneVarint(data[..1])
    ensures data[0] < 128 && Digits(data[..1]) == data[0] as nat
  {
    DigitsFront(data[..1]);
  }

  lemma BytesBehind(data: Data, size: nat)
    requires 1 < size <= |data| && OneVarint(data[..size])
    ensures data[0] >= 128 && OneVarint(data[1..][..size - 1])
    ensures Digits(data[..size]) == data[0] as nat - 128 + 128 * Digits(data[1..][..size - 1])
  {
    hide Digits;
    var ds, rest := data[..size], data[1..][..size - 1];
    assert ds[1..] == rest;
    forall i | 0 <= i < |rest| - 1 ensures rest[i] >= 128 {
      assert rest[i] == ds[i + 1];
    }
    DigitsFront(ds);
  }

  lemma {:induction false} VarintEnds(data: Data, k: nat)
    requires k < 10 && VarintFrom(data, k).Some?
    ensures OneVarint(data[..VarintFrom(data, k).value.size])
    decreases 10 - k
  {
    var n := VarintFrom(data, k).value.size;
    if data[0] >= 128 {
      VarintEnds(data[1..], k + 1);
      assert data[..n] == [data[0]] + data[1..][..n - 1];
    }
  }

  /**
   A varint is read exactly from bytes of which the last alone has its high bit clear, at most ten of them and 64 bits;
   its value is the sum of their low seven bits, each 128 times the weight of the byte before.
   */
  lemma VarintMeaning(data: Data, v: Varint)
    ensures ConsumeVarint(data) == Some(v) <==>
      && v.size <= |data| && OneVarint(data[..v.size]) && v.value == Digits(data[..v.size])
      && (v.size < 10 || (v.size == 10 && data[9] <= 1))
  {
    hide OneVarint, Digits, VarintFrom;
    NoBytesNoVarint();
    if ConsumeVarint(data) == Some(v) { VarintEnds(data, 0); }
    if 0 < v.size <= |data| && OneVarint(data[..v.size]) { VarintFromBytes(data, 0, v.size); }
  }

  lemma NoBytesNoVarint()
    ensures !OneVarint([])
  {
  }

  /** The first byte of a field with a number below 16 holds the number above the three bits of the wire type. */
  lemma TagByte(number: nat, typ: nat, rest: Data)
    requires 0 < number < 16 && typ < 8
    ensures AppendTag(number, typ) == [(8 * number + typ) as Byte]
    ensures ConsumeTag([(8 * number + typ) as Byte] + rest) == Some(Tag(number, typ, 1))
  {
    TagRoundTrip(number, typ, rest);
  }

  /** A value of wire type 1 takes eight bytes and one of type 5 four, and they are what it carries. */
  lemma FixedFields(number: nat, value: Data, rest: Data)
    requires 0 < number < 16
    ensures |value| == 8 ==>
      FirstRecord([(8 * number + 1) as Byte] + value + rest) == Some((Record(number, 1, value), 9))
    ensures |value| == 4 ==>
      FirstRecord([(8 * number + 5) as Byte] + value + rest) == Some((Record(number, 5, value), 5))
  {
    hide ConsumeTag;
    TagByte(number, 1, value + rest);
    TagByte(number, 5, value + rest);
    if |value| == 8 { FieldReads([(8 * number + 1) as Byte], value, rest, Tag(number, 1, 1)); }
    if |value| == 4 { FieldReads([(8 * number + 5) as Byte], value, rest, Tag(number, 5, 1)); }
  }

  /** Records between the start tag and the end tag of a group, wire types 3 and 4, belong to that one field. */
  lemma GroupField(number: nat, inner: Data, rest: Data)
    requires 0 < number < 16 && Records(inner).Some?
    ensures var value := inner + [(8 * number + 4) as Byte];
      FirstRecord([(8 * number + 3) as Byte] + value + rest) == Some((Record(number, 3, value), |value| + 1))
  {
    hide ConsumeTag, ConsumeGroup, Records;
    var value := inner + [(8 * number + 4) as Byte];
    TagByte(number, 3, value + rest);
    GroupReads(number, inner, rest);
    assert value + rest == inner + ([(8 * number + 4) as Byte] + rest);
    FieldReads([(8 * number + 3) as Byte], value, rest, Tag(number, 3, 1));
  }

  lemma RecordsStart(data: Data)
    requires data != [] && Records(data).Some?
    ensures ConsumeTag(data).Some?
    ensures var t := ConsumeTag(data).value;
      && ConsumeFieldValue(t.number, t.typ, data[t.size..]).Some? && t.typ != END_GROUP
      && var n := ConsumeFieldValue(t.number, t.typ, data[t.size..]).value;
         0 < t.size + n <= |data| && Records(data[t.size + n..]).Some?
  {
    hide ConsumeTag, ConsumeFieldValue;
    var t := ConsumeTag(data);
    if t.Some? { NoValueAtEnd(t.value.number, data[t.value.size..]); }
  }

  lemma NoValueAtEnd(number: nat, data: Data)
    ensures ConsumeFieldValue(number, END_GROUP, data).None?
  {
  }

  lemma GroupEnds(number: nat, rest: Data)
    requires 0 < number < 16
    ensures ConsumeGroup(number, [(8 * number + 4) as Byte] + rest) == Some(1)
  {
    hide ConsumeTag;
    TagByte(number, 4, rest);
  }

  lemma {:induction false} GroupReads(number: nat, inner: Data, rest: Data)
    requires 0 < number < 16 && Records(inner).Some?
    ensures ConsumeGroup(number, inner + ([(8 * number + 4) as Byte] + rest)) == Some(|inner| + 1)
    decreases |inner|
  {
    hide ConsumeTag, ConsumeFieldValue, ConsumeGroup, Records;
    var end := [(8 * number + 4) as Byte] + rest;
    if inner == [] {
      GroupEnds(number, rest);
      assert inner + end == end;
    } else {
      RecordsStart(inner);
      var t := ConsumeTag(inner).value;
      var n := ConsumeFieldValue(t.number, t.typ, inner[t.size..]).value;
      GroupReads(number, inner[t.size + n..], rest);
      TagPrefix(inner, end);
      DropConcat(inner, end, t.size);
      ValuePrefix(t.number, t.typ, inner[t.size..], end);
      DropConcat(inner, end, t.size + n);
      GroupGoesOn(number, inner + end, t, n);
    }
  }
}
