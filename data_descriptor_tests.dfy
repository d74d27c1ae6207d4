/** The descriptor table test cases, replayed against the model: each method
    builds a table, registers one property, stores one value in a record and
    promises what the test asserts. The record stands for `test_t`, whose
    fields lie at offsets 0 (`dummy`), 8 (`int_value`), 16 (`double_value`),
    24 (`boolean_value`) and 32 (`string_value`); it starts zeroed. */
module DataDescriptorTests {
  import opened Bytes
  import opened Status
  import opened ValueCodec
  import opened DataDescriptor

  /** `sizeof(test_t)`: four 8-byte fields and a 16-byte `sky_string`. */
  const RecordSize: nat := 48

  method NewRecord() returns (record: array<Value>)
    ensures fresh(record) && record.Length == RecordSize
  {
    record := new Value[RecordSize](_ => IntValue(0));
  }

  /** A new table for `min` to `max` with `id` registered at `offset`. */
  method TableWith(min: int, max: int, id: int, offset: nat, typeName: string) returns (d: Descriptor)
    requires min <= id <= max && TypeNamed(typeName).Some?
    ensures fresh(d.propertyDescriptors) && d.Valid()
    ensures d.minPropertyId == min && d.maxPropertyId == max
    ensures d.ZeroDescriptor(id).offset == offset
    ensures Resolve(d.propertyDescriptors[..], min, max, id) == Success((offset, TypeNamed(typeName).value))
  {
    d := New(min, max);
    var rc := d.SetProperty(id, offset, typeName);
    RegisterThenResolve(InitialSlots(min, max), min, max, id, offset, typeName, id);
  }

  /** A table for -20 to 30 has 115 slots, the first holding id -52, and the
      zero-relative view finds ids 0, 30 and 62 at their own indices. */
  method NewTable() returns (count: nat, firstId: int, viewIds: seq<int>)
    ensures count == 115 && firstId == -52 && viewIds == [0, 30, 62]
  {
    var d := New(-20, 30);
    count := d.propertyCount;
    firstId := d.propertyDescriptors[0].propertyId;
    viewIds := [d.ZeroDescriptor(0).propertyId, d.ZeroDescriptor(30).propertyId, d.ZeroDescriptor(62).propertyId];
  }

  /** `D1 03 E8` for an integer property stores 1000 at offset 8, three bytes. */
  method SetInteger() returns (offset: nat, size: nat, field: Value)
    ensures offset == 8 && size == 3 && field == IntValue(1000)
  {
    var record := NewRecord();
    var d := TableWith(0, 1, 1, 8, "integer");
    offset := d.ZeroDescriptor(1).offset;
    var buf: seq<byte> := [0xd1, 0x03, 0xe8];
    IntegerExample();
    assert Decode(buf, 0, IntegerType) == Success((IntValue(1000), 3));
    var rc;
    rc, size := d.SetValue(record, 1, buf, 0);
    field := record[8];
  }

  /** `CB` and eight bytes for a float property, registered under the
      negative id -1, stores those bits at offset 16, nine bytes. */
  method SetDouble() returns (offset: nat, size: nat, field: Value)
    ensures offset == 16 && size == 9 && field == FloatValue(0x4059_0ccc_cccc_cccd)
  {
    var record := NewRecord();
    var d := TableWith(-1, 0, -1, 16, "float");
    offset := d.ZeroDescriptor(-1).offset;
    var buf: seq<byte> := [0xcb, 0x40, 0x59, 0x0c, 0xcc, 0xcc, 0xcc, 0xcc, 0xcd];
    FloatExample();
    assert Decode(buf, 0, FloatType) == Success((FloatValue(0x4059_0ccc_cccc_cccd), 9));
    var rc;
    rc, size := d.SetValue(record, -1, buf, 0);
    field := record[16];
  }

  /** `C3` then `C2` for a boolean property: each consumes one byte, and the
      second value replaces the first at offset 24. */
  method SetBoolean() returns (offset: nat, size1: nat, field1: Value, size2: nat, field2: Value)
    ensures offset == 24
    ensures size1 == 1 && field1 == BoolValue(true)
    ensures size2 == 1 && field2 == BoolValue(false)
  {
    var record := NewRecord();
    var d := TableWith(0, 2, 2, 24, "boolean");
    offset := d.ZeroDescriptor(2).offset;
    var yes: seq<byte> := [0xc3];
    var no: seq<byte> := [0xc2];
    BooleanExamples();
    assert Decode(yes, 0, BooleanType) == Success((BoolValue(true), 1));
    assert Decode(no, 0, BooleanType) == Success((BoolValue(false), 1));
    var rc;
    rc, size1 := d.SetValue(record, 2, yes, 0);
    field1 := record[24];
    rc, size2 := d.SetValue(record, 2, no, 0);
    field2 := record[24];
  }

  /** `A3 'f' 'o' 'o'` for a string property stores, at offset 32, a view of
      length 3 that starts at index 1 of the input itself, four bytes. */
  method SetString() returns (offset: nat, size: nat, field: Value)
    ensures offset == 32 && size == 4 && field == StringValue(1, 3)
  {
    var record := NewRecord();
    var d := TableWith(0, 1, 1, 32, "string");
    offset := d.ZeroDescriptor(1).offset;
    var buf: seq<byte> := [0xa3, 0x66, 0x6f, 0x6f];
    StringExample();
    assert Decode(buf, 0, StringType) == Success((StringValue(1, 3), 4));
    var rc;
    rc, size := d.SetValue(record, 1, buf, 0);
    field := record[32];
  }
}
