/** The bytes the status publisher hashes: serialized `ContainerInfo` messages, one after
    the other with nothing between them. Protocol Buffers encoding: fields in number order,
    zero-valued fields omitted, fields with presence written whenever they are set. */
module StatusWire {
  import opened Common
  import opened ByteStrings

  // ---- the encoding of one field ----

  function Varint(n: nat): (bytes: Bytes)
    ensures |bytes| > 0
  {
    if n < 128 then [n as byte] else [(128 + n % 128) as byte] + Varint(n / 128)
  }

  /** No varint is a prefix of another. */
  lemma {:induction false} VarintPrefixFree(a: nat, b: nat, x: Bytes, y: Bytes)
    requires Varint(a) + x == Varint(b) + y
    ensures a == b && x == y
  {
    var u, v := Varint(a) + x, Varint(b) + y;
    assert u[0] == v[0];
    if a < 128 {
      assert b < 128;
      assert x == u[1..] && y == v[1..];
    } else {
      assert b >= 128;
      assert u[1..] == Varint(a / 128) + x;
      assert v[1..] == Varint(b / 128) + y;
      VarintPrefixFree(a / 128, b / 128, x, y);
    }
  }

  datatype Field = Number(no: nat, value: nat) | Blob(no: nat, bytes: Bytes)

  /** Field number and wire type: 0 for a varint, 2 for a length and that many bytes. */
  function Tag(f: Field): nat {
    if f.Number? then 8 * f.no else 8 * f.no + 2
  }

  function Body(f: Field): Bytes {
    match f
    case Number(_, value) => Varint(value)
    case Blob(_, bytes) => Varint(|bytes|) + bytes
  }

  function EncodeField(f: Field): (bytes: Bytes)
    ensures |bytes| > 0
  {
    Varint(Tag(f)) + Body(f)
  }

  lemma FieldPrefixFree(f: Field, g: Field, x: Bytes, y: Bytes)
    requires EncodeField(f) + x == EncodeField(g) + y
    ensures f == g && x == y
  {
    Regroup(Varint(Tag(f)), Body(f), x);
    Regroup(Varint(Tag(g)), Body(g), y);
    VarintPrefixFree(Tag(f), Tag(g), Body(f) + x, Body(g) + y);
    if f.Number? {
      VarintPrefixFree(f.value, g.value, x, y);
    } else {
      BlobPrefixFree(f.bytes, g.bytes, x, y);
    }
  }

  lemma BlobPrefixFree(a: Bytes, b: Bytes, x: Bytes, y: Bytes)
    requires Varint(|a|) + a + x == Varint(|b|) + b + y
    ensures a == b && x == y
  {
    Regroup(Varint(|a|), a, x);
    Regroup(Varint(|b|), b, y);
    VarintPrefixFree(|a|, |b|, a + x, b + y);
    SameLengthPrefix(a, b, x, y);
  }

  lemma Regroup(a: Bytes, b: Bytes, c: Bytes)
    ensures a + b + c == a + (b + c)
  {
  }

  lemma SameLengthPrefix(a: Bytes, b: Bytes, x: Bytes, y: Bytes)
    requires a + x == b + y && |a| == |b|
    ensures a == b && x == y
  {
    assert (a + x)[..|a|] == a && (b + y)[..|b|] == b;
    assert (a + x)[|a|..] == x && (b + y)[|b|..] == y;
  }

  function Encode(fields: seq<Field>): Bytes {
    if |fields| == 0 then [] else EncodeField(fields[0]) + Encode(fields[1..])
  }

  lemma {:induction false} EncodeInjective(a: seq<Field>, b: seq<Field>)
    requires Encode(a) == Encode(b)
    ensures a == b
  {
    if |a| > 0 && |b| > 0 {
      FieldPrefixFree(a[0], b[0], Encode(a[1..]), Encode(b[1..]));
      EncodeInjective(a[1..], b[1..]);
    }
  }

  lemma {:induction false} EncodeAppend(a: seq<Field>, b: seq<Field>)
    ensures Encode(a + b) == Encode(a) + Encode(b)
  {
    if |a| == 0 {
      assert a + b == b;
    } else {
      assert (a + b)[1..] == a[1..] + b;
      EncodeAppend(a[1..], b);
    }
  }

  /** The examples of the Protocol Buffers encoding guide: 150 as a varint, in field 1, and
      the string "testing" in field 2. */
  lemma EncodingExamples()
    ensures Varint(150) == [0x96, 0x01]
    ensures Encode([Number(1, 150)]) == [0x08, 0x96, 0x01]
    ensures Encode([Blob(2, [0x74, 0x65, 0x73, 0x74, 0x69, 0x6E, 0x67])])
         == [0x12, 0x07, 0x74, 0x65, 0x73, 0x74, 0x69, 0x6E, 0x67]
  {
    assert Varint(1) == [1];
    assert Varint(150) == [(128 + 22) as byte] + Varint(1);
    var number, text := Number(1, 150), Blob(2, [0x74, 0x65, 0x73, 0x74, 0x69, 0x6E, 0x67]);
    assert [number][1..] == [] && [text][1..] == [];
    assert Varint(8) == [8] && Varint(18) == [18] && Varint(7) == [7];
  }

  // ---- one message ----

  /** The fields that are written, from one slot for each field number. */
  function Compact(slots: seq<Option<Field>>): seq<Field> {
    if |slots| == 0 then []
    else (if slots[0].Some? then [slots[0].value] else []) + Compact(slots[1..])
  }

  ghost predicate Numbered(slots: seq<Option<Field>>, from: nat) {
    forall i :: 0 <= i < |slots| && slots[i].Some? ==> slots[i].value.no == from + i
  }

  lemma {:induction false} CompactNumbers(slots: seq<Option<Field>>, from: nat)
    requires Numbered(slots, from)
    ensures forall i :: 0 <= i < |Compact(slots)| ==> from <= Compact(slots)[i].no
  {
    if |slots| > 0 {
      CompactNumbers(slots[1..], from + 1);
    }
  }

  /** Field numbers say which slots were left out. */
  lemma {:induction false} CompactInjective(s: seq<Option<Field>>, t: seq<Option<Field>>, from: nat)
    requires |s| == |t| && Numbered(s, from) && Numbered(t, from) && Compact(s) == Compact(t)
    ensures s == t
  {
    if |s| > 0 {
      CompactNumbers(s[1..], from + 1);
      CompactNumbers(t[1..], from + 1);
      var fields := Compact(s);
      assert s[0].Some? ==> fields[0].no == from && fields[1..] == Compact(s[1..]);
      assert t[0].Some? ==> fields[0].no == from && fields[1..] == Compact(t[1..]);
      assert s[0].None? ==> fields == Compact(s[1..]);
      assert t[0].None? ==> fields == Compact(t[1..]);
      assert s[0].Some? <==> t[0].Some?;
      CompactInjective(s[1..], t[1..], from + 1);
      assert s == [s[0]] + s[1..] && t == [t[0]] + t[1..];
    }
  }

  // ---- ContainerInfo ----

  type int32 = v: int | -0x8000_0000 <= v < 0x8000_0000

  type int64 = v: int | -0x8000_0000_0000_0000 <= v < 0x8000_0000_0000_0000

  datatype Instant = Instant(seconds: int64, nanos: int32)

  /** Text is its UTF-8 bytes, an enum its number. */
  datatype ContainerInfo = ContainerInfo(
    name: Bytes, id: Bytes, image: Bytes, state: nat, rawState: Bytes,
    createdAt: Option<Instant>, startedAt: Option<Instant>, finishedAt: Option<Instant>,
    exitCode: Option<int32>, restartPolicy: nat, maxRetries: nat, restartCount: nat,
    health: nat, controllable: bool, composeProject: Bytes, composeService: Bytes, removable: bool)

  /** Signed integers travel as 64-bit two's complement. */
  function Unsigned(v: int64): nat {
    if v < 0 then v + 0x1_0000_0000_0000_0000 else v
  }

  function TextSlot(no: nat, text: Bytes): Option<Field> {
    if |text| == 0 then None else Some(Blob(no, text))
  }

  function NumberSlot(no: nat, value: nat): Option<Field> {
    if value == 0 then None else Some(Number(no, value))
  }

  function BoolSlot(no: nat, value: bool): Option<Field> {
    if value then Some(Number(no, 1)) else None
  }

  function InstantSlots(t: Instant): seq<Option<Field>> {
    [NumberSlot(1, Unsigned(t.seconds)), NumberSlot(2, Unsigned(t.nanos))]
  }

  /** A message field has presence: an instant at the epoch is written as an empty blob. */
  function InstantSlot(no: nat, t: Option<Instant>): Option<Field> {
    if t.None? then None else Some(Blob(no, Encode(Compact(InstantSlots(t.value)))))
  }

  function Slot(info: ContainerInfo, no: nat): Option<Field> {
    match no
    case 1 => TextSlot(1, info.name)
    case 2 => TextSlot(2, info.id)
    case 3 => TextSlot(3, info.image)
    case 4 => NumberSlot(4, info.state)
    case 5 => TextSlot(5, info.rawState)
    case 6 => InstantSlot(6, info.createdAt)
    case 7 => InstantSlot(7, info.startedAt)
    case 8 => InstantSlot(8, info.finishedAt)
    case 9 => if info.exitCode.None? then None else Some(Number(9, Unsigned(info.exitCode.value)))
    case 10 => NumberSlot(10, info.restartPolicy)
    case 11 => NumberSlot(11, info.maxRetries)
    case 12 => NumberSlot(12, info.restartCount)
    case 13 => NumberSlot(13, info.health)
    case 14 => BoolSlot(14, info.controllable)
    case 15 => TextSlot(15, info.composeProject)
    case 16 => TextSlot(16, info.composeService)
    case 17 => BoolSlot(17, info.removable)
    case _ => None
  }

  function Slots(info: ContainerInfo): (slots: seq<Option<Field>>)
    ensures |slots| == 17 && forall i :: 0 <= i < 17 ==> slots[i] == Slot(info, i + 1)
  {
    seq(17, i requires 0 <= i < 17 => Slot(info, i + 1))
  }

  lemma SlotsNumbered(info: ContainerInfo)
    ensures Numbered(Slots(info), 1)
  {
    var slots := Slots(info);
    forall i | 0 <= i < |slots| && slots[i].Some? ensures slots[i].value.no == 1 + i {
      assert slots[i] == Slot(info, i + 1);
    }
  }

  function Fields(info: ContainerInfo): seq<Field> {
    Compact(Slots(info))
  }

  lemma InstantSlotInjective(no: nat, s: Option<Instant>, t: Option<Instant>)
    requires InstantSlot(no, s) == InstantSlot(no, t)
    ensures s == t
  {
    if s.Some? {
      EncodeInjective(Compact(InstantSlots(s.value)), Compact(InstantSlots(t.value)));
      CompactInjective(InstantSlots(s.value), InstantSlots(t.value), 1);
      assert InstantSlots(s.value)[0] == InstantSlots(t.value)[0];
      assert InstantSlots(s.value)[1] == InstantSlots(t.value)[1];
    }
  }

  /** Each slot determines its field of the record. */
  lemma SlotsInjective(a: ContainerInfo, b: ContainerInfo)
    requires forall no :: 1 <= no <= 17 ==> Slot(a, no) == Slot(b, no)
    ensures a == b
  {
    assert a.name == b.name && a.id == b.id && a.image == b.image by {
      assert Slot(a, 1) == Slot(b, 1) && Slot(a, 2) == Slot(b, 2) && Slot(a, 3) == Slot(b, 3);
    }
    assert a.state == b.state && a.rawState == b.rawState by {
      assert Slot(a, 4) == Slot(b, 4) && Slot(a, 5) == Slot(b, 5);
    }
    assert a.createdAt == b.createdAt && a.startedAt == b.startedAt && a.finishedAt == b.finishedAt by {
      assert Slot(a, 6) == Slot(b, 6) && Slot(a, 7) == Slot(b, 7) && Slot(a, 8) == Slot(b, 8);
      InstantSlotInjective(6, a.createdAt, b.createdAt);
      InstantSlotInjective(7, a.startedAt, b.startedAt);
      InstantSlotInjective(8, a.finishedAt, b.finishedAt);
    }
    assert a.exitCode == b.exitCode && a.restartPolicy == b.restartPolicy by {
      assert Slot(a, 9) == Slot(b, 9) && Slot(a, 10) == Slot(b, 10);
    }
    assert a.maxRetries == b.maxRetries && a.restartCount == b.restartCount && a.health == b.health by {
      assert Slot(a, 11) == Slot(b, 11) && Slot(a, 12) == Slot(b, 12) && Slot(a, 13) == Slot(b, 13);
    }
    assert a.controllable == b.controllable && a.removable == b.removable by {
      assert Slot(a, 14) == Slot(b, 14) && Slot(a, 17) == Slot(b, 17);
    }
    assert a.composeProject == b.composeProject && a.composeService == b.composeService by {
      assert Slot(a, 15) == Slot(b, 15) && Slot(a, 16) == Slot(b, 16);
    }
  }

  lemma FieldsInjective(a: ContainerInfo, b: ContainerInfo)
    requires Fields(a) == Fields(b)
    ensures a == b
  {
    SlotsNumbered(a);
    SlotsNumbered(b);
    CompactInjective(Slots(a), Slots(b), 1);
    forall no | 1 <= no <= 17 ensures Slot(a, no) == Slot(b, no) {
      assert Slots(a)[no - 1] == Slots(b)[no - 1];
    }
    SlotsInjective(a, b);
  }

  // ---- a list of messages ----

  function Serialize(infos: seq<ContainerInfo>): Bytes {
    if |infos| == 0 then [] else Encode(Fields(infos[0])) + Serialize(infos[1..])
  }

  function AllFields(infos: seq<ContainerInfo>): seq<Field> {
    if |infos| == 0 then [] else Fields(infos[0]) + AllFields(infos[1..])
  }

  ghost predicate Named(infos: seq<ContainerInfo>) {
    forall i :: 0 <= i < |infos| ==> |infos[i].name| > 0
  }

  lemma {:induction false} SerializeIsEncode(infos: seq<ContainerInfo>)
    ensures Serialize(infos) == Encode(AllFields(infos))
  {
    if |infos| > 0 {
      SerializeIsEncode(infos[1..]);
      EncodeAppend(Fields(infos[0]), AllFields(infos[1..]));
    }
  }

  /** The field that starts every message, the name, occurs in it once. */
  lemma NameStartsMessage(info: ContainerInfo)
    requires |info.name| > 0
    ensures var fields := Fields(info);
      |fields| > 0 && fields[0].no == 1 && forall i :: 0 < i < |fields| ==> fields[i].no > 1
  {
    var slots := Slots(info);
    SlotsNumbered(info);
    assert slots[0] == Slot(info, 1);
    CompactNumbers(slots[1..], 2);
    assert Compact(slots) == [slots[0].value] + Compact(slots[1..]);
  }

  /** Where the message ends that starts `fields`: before the next name. */
  function MessageEnd(fields: seq<Field>, from: nat): (end: nat)
    requires from <= |fields|
    ensures from <= end <= |fields|
    decreases |fields| - from
  {
    if from == |fields| || fields[from].no == 1 then from else MessageEnd(fields, from + 1)
  }

  lemma {:induction false} MessageEndFound(message: seq<Field>, rest: seq<Field>, from: nat)
    requires from <= |message| && forall i :: from <= i < |message| ==> message[i].no > 1
    requires |rest| > 0 ==> rest[0].no == 1
    ensures MessageEnd(message + rest, from) == |message|
    decreases |message| - from
  {
    if from < |message| {
      MessageEndFound(message, rest, from + 1);
    }
  }

  lemma {:induction false} AllFieldsInjective(a: seq<ContainerInfo>, b: seq<ContainerInfo>)
    requires Named(a) && Named(b) && AllFields(a) == AllFields(b)
    ensures a == b
  {
    if |a| > 0 {
      NameStartsMessage(a[0]);
    }
    if |b| > 0 {
      NameStartsMessage(b[0]);
    }
    if |a| > 0 && |b| > 0 {
      RestStartsWithName(a[1..]);
      RestStartsWithName(b[1..]);
      MessageEndFound(Fields(a[0]), AllFields(a[1..]), 1);
      MessageEndFound(Fields(b[0]), AllFields(b[1..]), 1);
      var n := |Fields(a[0])|;
      assert AllFields(a)[..n] == Fields(a[0]) && AllFields(b)[..n] == Fields(b[0]);
      assert AllFields(a)[n..] == AllFields(a[1..]) && AllFields(b)[n..] == AllFields(b[1..]);
      FieldsInjective(a[0], b[0]);
      AllFieldsInjective(a[1..], b[1..]);
    }
  }

  lemma RestStartsWithName(infos: seq<ContainerInfo>)
    requires Named(infos)
    ensures |AllFields(infos)| > 0 ==> AllFields(infos)[0].no == 1
  {
    if |infos| > 0 {
      NameStartsMessage(infos[0]);
    }
  }

  /** The undelimited concatenation is uniquely decodable. */
  lemma SerializeInjective(a: seq<ContainerInfo>, b: seq<ContainerInfo>)
    requires Named(a) && Named(b)
    ensures Serialize(a) == Serialize(b) <==> a == b
  {
    if Serialize(a) == Serialize(b) {
      SerializeIsEncode(a);
      SerializeIsEncode(b);
      EncodeInjective(AllFields(a), AllFields(b));
      AllFieldsInjective(a, b);
    }
  }

  const BLANK := ContainerInfo([], [], [], 0, [], None, None, None, None, 0, 0, 0, 0, false, [], [], false)

  /** It takes the names: a message without any set field leaves no trace. */
  lemma NamelessIsInvisible(infos: seq<ContainerInfo>)
    ensures Serialize([BLANK] + infos) == Serialize(infos)
  {
    forall i | 0 <= i < 17 ensures Slots(BLANK)[i].None? {
    }
    AllAbsent(Slots(BLANK));
    assert ([BLANK] + infos)[1..] == infos;
  }

  lemma {:induction false} AllAbsent(slots: seq<Option<Field>>)
    requires forall i :: 0 <= i < |slots| ==> slots[i].None?
    ensures Compact(slots) == []
  {
    if |slots| > 0 {
      AllAbsent(slots[1..]);
    }
  }
}
