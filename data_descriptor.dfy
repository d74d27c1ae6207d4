/** The property descriptor table, `sky_data_descriptor`. It maps a signed
    property id to the offset and declared type of a field in a record. Slot
    `i` of the backing array belongs to id `min - 32 + i`: there are 32 spare
    slots below the smallest id and 32 above the largest. The zero-relative
    view `property_zero_descriptor` indexes the same array by id. `set_value`
    decodes one value at a cursor and stores it in the record field at the
    registered offset. A record is an array of field values indexed by byte
    offset. */
module DataDescriptor {
  import opened Bytes
  import opened Status
  import opened ValueCodec

  /** The spare slots below the smallest and above the largest property id. */
  const ReservedSlots: nat := 32

  /** One slot, `sky_property_descriptor`. The type stays `None` until the id
      is registered. */
  datatype PropertyDescriptor = PropertyDescriptor(propertyId: int, offset: nat, propertyType: Option<PropertyType>)

  /** The id of slot 0 of the backing array. */
  function FirstSlotId(min: int): int
  {
    min - ReservedSlots
  }

  /** The number of slots for the ids `min` to `max`: `property_count`. */
  function SlotCount(min: int, max: int): (n: nat)
    requires min <= max
    ensures n == (max + ReservedSlots) - FirstSlotId(min) + 1
  {
    max - min + 1 + 2 * ReservedSlots
  }

  /** The slots of a table for `min` to `max`, each holding its own id. */
  ghost predicate WellFormed(slots: seq<PropertyDescriptor>, min: int, max: int)
  {
    min <= max && |slots| == SlotCount(min, max)
    && forall i :: 0 <= i < |slots| ==> slots[i].propertyId == FirstSlotId(min) + i
  }

  /** The table `sky_data_descriptor_new` builds: every slot holds its id and
      nothing is registered. */
  function InitialSlots(min: int, max: int): (slots: seq<PropertyDescriptor>)
    requires min <= max
    ensures WellFormed(slots, min, max)
    ensures forall i :: 0 <= i < |slots| ==> slots[i].propertyType == None
  {
    seq(SlotCount(min, max), i => PropertyDescriptor(FirstSlotId(min) + i, 0, None))
  }

  /** `sky_data_descriptor_set_property`: the table after registering `id`
      at `offset` under a type name. An id outside `min` to `max` is an
      unknown property; a name that is not a type is unsupported. */
  function Register(slots: seq<PropertyDescriptor>, min: int, max: int, id: int, offset: nat, typeName: string)
    : (r: Result<seq<PropertyDescriptor>>)
    requires WellFormed(slots, min, max)
    ensures r.Success? <==> min <= id <= max && TypeNamed(typeName).Some?
    ensures r.Failure? ==> r.error == (if min <= id <= max then UnsupportedType else UnknownProperty)
    ensures r.Success? ==> WellFormed(r.value, min, max)
  {
    if id < min || max < id then Failure(UnknownProperty)
    else match TypeNamed(typeName)
      case None => Failure(UnsupportedType)
      case Some(t) => Success(slots[id - FirstSlotId(min) := PropertyDescriptor(id, offset, Some(t))])
  }

  /** The offset and type `set_value` uses for `id`: an unregistered id is
      an unknown property. */
  function Resolve(slots: seq<PropertyDescriptor>, min: int, max: int, id: int): (r: Result<(nat, PropertyType)>)
    requires WellFormed(slots, min, max)
    ensures r.Failure? ==> r.error == UnknownProperty
    ensures r.Success? ==> min <= id <= max
  {
    if id < min || max < id then Failure(UnknownProperty)
    else
      var slot := slots[id - FirstSlotId(min)];
      match slot.propertyType
      case None => Failure(UnknownProperty)
      case Some(t) => Success((slot.offset, t))
  }

  /** `sky_data_descriptor_set_value` as a value: the offset written, the
      value written there and the bytes consumed. */
  function ValueFor(slots: seq<PropertyDescriptor>, min: int, max: int, id: int, buf: seq<byte>, pos: nat)
    : (r: Result<(nat, Value, nat)>)
    requires WellFormed(slots, min, max)
    ensures Resolve(slots, min, max, id).Failure? ==> r == Failure(UnknownProperty)
    ensures r.Success? ==> Resolve(slots, min, max, id).Success?
    ensures r.Success? ==>
      var (offset, t) := Resolve(slots, min, max, id).value;
      r.value.0 == offset && HasType(r.value.1, t) && 1 <= r.value.2 && pos + r.value.2 <= |buf|
    ensures r.Failure? ==> r.error in {UnknownProperty, ShortBuffer, DecodeMismatch}
  {
    var (offset, t) :- Resolve(slots, min, max, id);
    var (v, size) :- Decode(buf, pos, t);
    Success((offset, v, size))
  }

  /** Nothing is registered in a new table. */
  lemma {:induction false} ResolveInitial(min: int, max: int, id: int)
    requires min <= max
    ensures Resolve(InitialSlots(min, max), min, max, id) == Failure(UnknownProperty)
  {
    var slots := InitialSlots(min, max);
    if min <= id <= max {
      assert slots[id - FirstSlotId(min)].propertyType == None;
    }
  }

  /** After a registration the id resolves to what was registered, and every
      other id resolves as before. */
  lemma {:induction false} RegisterThenResolve(slots: seq<PropertyDescriptor>, min: int, max: int,
                                               id: int, offset: nat, typeName: string, other: int)
    requires WellFormed(slots, min, max)
    requires Register(slots, min, max, id, offset, typeName).Success?
    ensures Resolve(Register(slots, min, max, id, offset, typeName).value, min, max, other)
      == if other == id then Success((offset, TypeNamed(typeName).value)) else Resolve(slots, min, max, other)
  {
    var after := Register(slots, min, max, id, offset, typeName).value;
    if min <= other <= max {
      assert after[other - FirstSlotId(min)]
        == if other == id then PropertyDescriptor(id, offset, TypeNamed(typeName)) else slots[other - FirstSlotId(min)];
    }
  }

  /** Registering an id again overwrites the first registration. */
  lemma {:induction false} RegisterOverwrites(slots: seq<PropertyDescriptor>, min: int, max: int, id: int,
                                              offset1: nat, typeName1: string, offset2: nat, typeName2: string)
    requires WellFormed(slots, min, max)
    requires Register(slots, min, max, id, offset1, typeName1).Success?
    ensures Register(Register(slots, min, max, id, offset1, typeName1).value, min, max, id, offset2, typeName2)
      == Register(slots, min, max, id, offset2, typeName2)
  {
    var first := Register(slots, min, max, id, offset1, typeName1).value;
    if TypeNamed(typeName2).Some? {
      var slot := PropertyDescriptor(id, offset2, TypeNamed(typeName2));
      assert first[id - FirstSlotId(min) := slot] == slots[id - FirstSlotId(min) := slot];
    }
  }

  /** A value encoded at the cursor for a registered id is stored, whole, at
      the registered offset: the partner of `ValueFor` on integers. */
  lemma {:induction false} SetIntegerValue(slots: seq<PropertyDescriptor>, min: int, max: int, id: int,
                                           buf: seq<byte>, pos: nat, x: int)
    requires WellFormed(slots, min, max)
    requires Resolve(slots, min, max, id).Success? && Resolve(slots, min, max, id).value.1 == IntegerType
    requires InSignedRange(x, 8)
    requires pos + |EncodeInteger(x)| <= |buf| && buf[pos..pos + |EncodeInteger(x)|] == EncodeInteger(x)
    ensures ValueFor(slots, min, max, id, buf, pos)
      == Success((Resolve(slots, min, max, id).value.0, IntValue(x), |EncodeInteger(x)|))
  {
    IntegerRoundTrip(buf, pos, x);
  }

  /** A string for a registered id is stored as a view of its contents in
      the input: the partner of `ValueFor` on strings. */
  lemma {:induction false} SetStringValue(slots: seq<PropertyDescriptor>, min: int, max: int, id: int,
                                          buf: seq<byte>, pos: nat, s: seq<byte>)
    requires WellFormed(slots, min, max)
    requires Resolve(slots, min, max, id).Success? && Resolve(slots, min, max, id).value.1 == StringType
    requires |s| < Pow256(4)
    requires pos + |EncodeString(s)| <= |buf| && buf[pos..pos + |EncodeString(s)|] == EncodeString(s)
    ensures var r := ValueFor(slots, min, max, id, buf, pos);
      r.Success? && r.value.1.StringValue? && r.value.2 == |EncodeString(s)|
      && buf[r.value.1.start..r.value.1.start + r.value.1.length] == s
  {
    StringRoundTrip(buf, pos, s);
  }

  class Descriptor {
    const minPropertyId: int
    const maxPropertyId: int
    const propertyCount: nat
    /** `property_descriptors`: the backing array, slot 0 first. */
    const propertyDescriptors: array<PropertyDescriptor>

    ghost predicate Valid()
      reads this, propertyDescriptors
    {
      WellFormed(propertyDescriptors[..], minPropertyId, maxPropertyId)
      && propertyCount == propertyDescriptors.Length
    }

    /** `property_zero_descriptor[id]`: the slot of `id` through the
        zero-relative view; it holds that id. */
    function ZeroDescriptor(id: int): (slot: PropertyDescriptor)
      requires Valid() && FirstSlotId(minPropertyId) <= id < FirstSlotId(minPropertyId) + propertyCount
      reads this, propertyDescriptors
      ensures slot.propertyId == id
    {
      propertyDescriptors[id - FirstSlotId(minPropertyId)]
    }

    constructor (min: int, max: int)
      requires min <= max
      ensures Valid() && minPropertyId == min && maxPropertyId == max
      ensures propertyDescriptors[..] == InitialSlots(min, max)
      ensures fresh(propertyDescriptors)
    {
      minPropertyId := min;
      maxPropertyId := max;
      propertyCount := SlotCount(min, max);
      propertyDescriptors := new PropertyDescriptor[SlotCount(min, max)](i => PropertyDescriptor(FirstSlotId(min) + i, 0, None));
    }

    /** `sky_data_descriptor_set_property`: 0 when the slot of `id` now holds
        `offset` and the named type, -1 with the table unchanged otherwise. */
    method SetProperty(id: int, offset: nat, typeName: string) returns (rc: int)
      requires Valid()
      modifies propertyDescriptors
      ensures Valid()
      ensures rc == 0 || rc == -1
      ensures var r := Register(old(propertyDescriptors[..]), minPropertyId, maxPropertyId, id, offset, typeName);
        (rc == 0 <==> r.Success?)
        && propertyDescriptors[..] == if r.Success? then r.value else old(propertyDescriptors[..])
    {
      if id < minPropertyId || maxPropertyId < id {
        return -1;
      }
      var t := TypeNamed(typeName);
      if t.None? {
        return -1;
      }
      propertyDescriptors[id - FirstSlotId(minPropertyId)] := PropertyDescriptor(id, offset, t);
      rc := 0;
    }

    /** `sky_data_descriptor_set_value`: decodes the value at `pos` as the
        type registered for `id`, stores it in `record` at the registered
        offset and reports the bytes consumed; -1 with the record unchanged
        when the id is not registered or the value does not decode. The
        record must have a field at the registered offset. */
    method SetValue(record: array<Value>, id: int, buf: seq<byte>, pos: nat) returns (rc: int, size: nat)
      requires Valid()
      requires var r := Resolve(propertyDescriptors[..], minPropertyId, maxPropertyId, id);
        r.Success? ==> r.value.0 < record.Length
      modifies record
      ensures rc == 0 || rc == -1
      ensures var r := ValueFor(propertyDescriptors[..], minPropertyId, maxPropertyId, id, buf, pos);
        (rc == 0 <==> r.Success?)
        && (r.Success? ==> size == r.value.2 && record[..] == old(record[..])[r.value.0 := r.value.1])
        && (r.Failure? ==> size == 0 && record[..] == old(record[..]))
    {
      if id < minPropertyId || maxPropertyId < id {
        return -1, 0;
      }
      var slot := propertyDescriptors[id - FirstSlotId(minPropertyId)];
      if slot.propertyType.None? {
        return -1, 0;
      }
      var decoded := Decode(buf, pos, slot.propertyType.value);
      if decoded.Failure? {
        return -1, 0;
      }
      record[slot.offset] := decoded.value.0;
      size := decoded.value.1;
      rc := 0;
    }
  }

  /** `sky_data_descriptor_new`: no table when `max < min`; otherwise a new
      table whose slots hold their ids and have nothing registered. */
  method New(min: int, max: int) returns (d: Descriptor?)
    ensures d == null <==> max < min
    ensures d != null ==>
      && fresh(d) && fresh(d.propertyDescriptors) && d.Valid()
      && d.minPropertyId == min && d.maxPropertyId == max
      && d.propertyDescriptors[..] == InitialSlots(min, max)
  {
    if max < min {
      return null;
    }
    d := new Descriptor(min, max);
  }
}
