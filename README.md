# sky: event data, EADD messages and the property descriptor table

This project models three parts of the sky event store's C core and proves
properties about them in Dafny.

- **Event data items** (`src/event_data.c`). An event data item is a signed
  16-bit property id with a byte-string value. `clean` cuts the value to at
  most 127 bytes. Serialization writes the key in host byte order, then a
  one-byte value length, then the value. Deserialization reads the same
  layout back. `EventData` is a class whose fields the methods update in
  place. The buffer is an `array<byte>`, and each `memwrite` is a write into
  it that advances a cursor. The host's byte order is a parameter
  (`Bytes.ByteOrder`).
- **Wire messages** (`src/message.c`). The ten-byte message header holds a
  16-bit version, a 32-bit type and a 32-bit length, all in network byte
  order. The EADD ("add event") message body holds, in order:
  - a 64-bit object id and a 64-bit timestamp;
  - a length-prefixed action name;
  - a 16-bit data count and that many data items. Each item is a 16-bit key
    length and the key, then a one-byte value length and the value. The
    parse is rejected when a value length is 128 or more.

  `EaddMessage.Parse` is the imperative parser. It fills the message's
  fields and its key and value arrays in a `for` loop. It is proved against
  `ParseEadd`, a pure specification built from `ParseDataItems`, which
  follows the loop one iteration at a time. Separately, the encoders
  (`EncodeHeader`, `EncodeEaddBody`) and the round-trip lemmas tie the
  specification to the wire format.
- **The property descriptor table** (`sky_data_descriptor`, as its tests in
  `csky/tests/data_descriptor_tests.c` use it). The table maps a signed
  property id to a record offset and a declared type (integer, float,
  boolean or string). `set_value` decodes one MessagePack value at a cursor
  and stores it in the record at that offset. The table is a class over an
  array of slots. The decoder is `ValueCodec.Decode`, and its encoders and
  round trips are its partners. Each C test case is replayed as a method in
  `DataDescriptorTests`, whose `ensures` are the test's assertions.

Files:
- `status.dfy`: `Result`, `Option` and the error kinds.
- `bytes.dfy`: bytes, big-endian values, host loads and stores, `ntoh*`,
  two's complement, and `memwrite`.
- `event_data.dfy`
- `message.dfy`
- `value_codec.dfy`
- `data_descriptor.dfy`
- `data_descriptor_tests.dfy`

## Model

| member | source | states |
|---|---|---|
| EventDataItem.Truncated | src/event_data.c:43-50 | The cleaned value is the longest prefix of the value with at most 127 bytes. |
| EventDataItem.TruncatedIdempotent | src/event_data.c:43-50 | Cleaning a cleaned value changes nothing. |
| EventDataItem.EventData.Clean | src/event_data.c:43-50 | Replaces the value by its cleaned form and keeps the key. |
| EventDataItem.EventData.constructor | src/event_data.c:61-69 | A new item holds the given key and value. |
| EventDataItem.Copy | src/event_data.c:91-104 | A missing source gives -1 and no target. Otherwise it gives 0 and a fresh item with the source's key and value. |
| EventDataItem.EventData.SerializedLength | src/event_data.c:114-125 | Cleans the item, then returns 2 + 1 + the value length, at most 130. That is the length of the serialized form, on either host byte order. |
| EventDataItem.Serialized | src/event_data.c:145-153 | The serialized form is the key's two bytes, then a length byte equal to the cleaned value's length, then the cleaned value. |
| EventDataItem.Serialize | src/event_data.c:134-164 | Returns -1 and changes nothing when the item or the buffer is missing. Otherwise it cleans the item and writes exactly `Serialized` at the cursor, and every other byte is kept. The reported length is the number of bytes written. |
| EventDataItem.WriteItem | src/event_data.c:145-153 | The three `memwrite`s write the key, the length byte and the value one after another. Their result is `Serialized`. |
| Bytes.MemWrite | src/event_data.c:146 | `memwrite` copies the bytes at the cursor, keeps every other byte, and advances the cursor by their length. |
| EventDataItem.Deserialize | src/event_data.c:173-201 | Returns -1 and reports 0 bytes when the item or the buffer is missing. Otherwise the item holds the key and the value read at the cursor, and the reported length is 3 + the length byte. |
| EventDataItem.KeyRoundTrip | src/event_data.c:146 | Reading back the key bytes written on the same host gives the same `int16_t`. |
| EventDataItem.KeyBytesOfKey | src/event_data.c:182 | Writing back a key read on the same host gives the same two bytes. |
| EventDataItem.SerializeRoundTrip | src/event_data.c:134-201 | Deserializing a serialized item, whatever follows it, gives the key and the cleaned value. It reads exactly the bytes that were written. |
| EventDataItem.DeserializeRoundTrip | src/event_data.c:134-201 | Re-serializing a deserialized item whose length byte is at most 127 gives back the bytes that were read. |
| EventDataItem.SerializeThenDeserialize | src/event_data.c:134-201 | Serializing into a buffer and deserializing from it into a second item gives that item the first's key and cleaned value. The bytes read equal the bytes written. |
| Bytes.NetworkToHostOfLoad | src/message.c:30-39 | On either host byte order, a native load followed by `ntoh*` gives the big-endian value of the bytes. |
| Bytes.HostLoadOfStore | src/event_data.c:146 | A native store followed by a native load on the same host gives the integer back. |
| Bytes.HostStoreOfLoad | src/event_data.c:182 | A native load followed by a native store on the same host gives the bytes back. |
| Message.ParseHeader | src/message.c:27-45 | Always returns 0, with the version, type and length that the ten bytes at the cursor hold in network byte order, on either host. |
| Message.HeaderRoundTrip | src/message.c:27-45 | Decoding an encoded header, whatever follows it, gives the header back. |
| Message.HeaderBytesRoundTrip | src/message.c:27-45 | Encoding a decoded header gives back the ten bytes it was read from. |
| Message.HeaderExample | src/message.c:27-45 | The bytes 00 01 00 00 00 02 00 00 00 0A are version 1, type 2, length 10. |
| Message.Uint16RoundTrip | src/message.c:91-93 | Two network-order bytes of a 16-bit `n` read back as `n`. |
| Message.Uint16BytesOfAt | src/message.c:91-93 | A 16-bit value read from two bytes encodes back to those bytes. |
| Message.Uint16AtIsBigEndian | src/message.c:91-93 | The 16-bit read is the big-endian value of its two bytes. |
| Message.ValuesFitMeans | src/message.c:117 | The rejection test passes exactly when every data value is at most 127 bytes. |
| Message.ParseDataItemBytes | src/message.c:110-118 | The bytes one loop iteration consumes are exactly the encoding of the item it produces. |
| Message.DataItemAt | src/message.c:110-118 | An encoded item parses back to itself and consumes its own length. It is rejected instead when its value is 128 bytes or more. |
| Message.DataItemsConsumed | src/message.c:109-119 | The bytes a successful data loop consumes are exactly the encoding of its items, and their number is the sum of the item sizes. |
| Message.DataItemsAt | src/message.c:109-119 | Parsing encoded items gives them back and ends where their encoding ends. It is rejected when any value is longer than 127 bytes. |
| Message.DataItemsFailureStays | src/message.c:117 | Once the data loop has failed, running it for more items fails in the same way. |
| Message.ParseEaddParts | src/message.c:82-98 | A successful parse reads each fixed field from its own bytes, then parses the items after the data count. |
| Message.ParseEaddBounds | src/message.c:80-98 | A parse that does not run out of bytes finds the fixed fields and the data count inside the buffer. |
| Message.ParseEaddFields | src/message.c:82-119 | Once the fixed fields are known, the message parse fails or succeeds exactly when the data loop does, with the loop's error or items. |
| Message.EaddConsumed | src/message.c:70-128 | A successful parse has read exactly the header plus the encoding of the body it produced: 8 + 8 + 2 + name length + 2 + the sum of 2 + key + 1 + value bytes over the items. |
| Message.EaddRoundTrip | src/message.c:70-128 | Parsing an encoded body found after any header gives the body back and ends where the encoding ends. It is rejected when any value exceeds 127 bytes. |
| Message.EaddBodyParts | src/message.c:82-98 | Each field of an encoded body lies where the parser reads it. |
| Message.EaddBodyAt | src/message.c:82-98 | Fields that each lie where the parser reads them make up the whole encoded body. |
| Message.ReadHeader | src/message.c:72-78 | Parses the header and skips `SKY_MESSAGE_HEADER_LENGTH` bytes, so the body starts at 10. The message end `maxptr` is 10 plus the header's network-order length field in bytes 6-9. |
| Message.EaddMessage.Parse | src/message.c:70-128 | Returns 0 exactly when `ParseEadd` succeeds, and -1 otherwise, which can only be a value of 128 bytes or more. On success the fields hold the object id, timestamp, action name and data count, and fresh key and value arrays hold the items in input order. |
| Message.ReadDataItems | src/message.c:107-119 | The data loop returns 0 exactly when the loop specification succeeds for as many items as the arrays hold. The key and value arrays then hold the items' keys and values in order. |
| Message.ReadKey | src/message.c:110-113 | Reads a 16-bit key length and that many key bytes, and returns the cursor after them. |
| Message.ReadValue | src/message.c:115-118 | Reads a one-byte value length. Below 128 it returns that many bytes and the cursor after them. From 128 up it fails. |
| Message.ReadUint16 | src/message.c:91-93 | A native 16-bit load followed by `ntohs` gives the network-order value, and the cursor advances by 2. |
| Message.ReadUint64 | src/message.c:83-84 | A native 64-bit load followed by `ntohll` gives the network-order value, and the cursor advances by 8. |
| Message.DataLoopTooLarge | src/message.c:117 | A value length of 128 or more at any iteration makes the whole loop fail with that rejection. |
| ValueCodec.TypeNamed | csky/tests/data_descriptor_tests.c:76-118 | Exactly the names "integer", "float", "boolean" and "string" denote a type, and the denoted type is registered under that same name. |
| ValueCodec.TypeNamedOfName | csky/tests/data_descriptor_tests.c:76-118 | Every type's name denotes that type. |
| ValueCodec.Decode | csky/tests/data_descriptor_tests.c:19-27 | A decoded value has the declared type and consumes at least one byte, all inside the input. A string is a view that ends where the consumed bytes end. Decode fails with a mismatch exactly when the tag is outside the type's family; every other failure is a short buffer. |
| ValueCodec.IntegerAt | csky/tests/data_descriptor_tests.c:19 | Any integer-family encoding decodes to what its tag and big-endian payload denote, and consumes its own length. |
| ValueCodec.IntegerOfEncoding | csky/tests/data_descriptor_tests.c:19 | The payload of a 64-bit signed integer's shortest encoding denotes that integer. |
| ValueCodec.IntegerRoundTrip | csky/tests/data_descriptor_tests.c:71-83 | An encoded integer decodes back to itself and consumes its encoding. |
| ValueCodec.FloatRoundTrip | csky/tests/data_descriptor_tests.c:85-96 | An encoded float 64 decodes back to its bits and consumes nine bytes. |
| ValueCodec.BooleanRoundTrip | csky/tests/data_descriptor_tests.c:98-112 | An encoded boolean decodes back to itself and consumes one byte. |
| ValueCodec.StringAt | csky/tests/data_descriptor_tests.c:114-126 | A string header followed by its contents decodes to a view of exactly those contents. |
| ValueCodec.StringLengthOfHeader | csky/tests/data_descriptor_tests.c:27 | A string header announces the length it was built for. |
| ValueCodec.StringRoundTrip | csky/tests/data_descriptor_tests.c:114-126 | An encoded string decodes to a view of its contents and consumes the header and the contents. |
| ValueCodec.IntegerExample | csky/tests/data_descriptor_tests.c:19 | D1 03 E8 decodes to the integer 1000 and consumes three bytes. |
| ValueCodec.FloatExample | csky/tests/data_descriptor_tests.c:21 | CB 40 59 0C CC CC CC CC CD decodes to the float with bits 0x40590CCCCCCCCCCD and consumes nine bytes. |
| ValueCodec.BooleanExamples | csky/tests/data_descriptor_tests.c:23-25 | C3 decodes to true and C2 to false, each consuming one byte. |
| ValueCodec.StringExample | csky/tests/data_descriptor_tests.c:27 | A3 66 6F 6F decodes to a view of the three bytes after the tag and consumes four bytes. |
| DataDescriptor.SlotCount | csky/tests/data_descriptor_tests.c:57 | The table for `min` to `max` has one slot per id from `min - 32` to `max + 32`. |
| DataDescriptor.InitialSlots | csky/tests/data_descriptor_tests.c:55-64 | A new table has every slot holding its own id and nothing registered. |
| DataDescriptor.New | csky/tests/data_descriptor_tests.c:55-64 | No table when `max < min`. Otherwise a fresh table for `min` to `max` holding the initial slots. |
| DataDescriptor.Descriptor.constructor | csky/tests/data_descriptor_tests.c:55-64 | The slots are the initial slots, and the count is their number. |
| DataDescriptor.Descriptor.ZeroDescriptor | csky/tests/data_descriptor_tests.c:59-61 | The zero-relative view at index `id` is the slot holding `id`. |
| DataDescriptor.Register | csky/tests/data_descriptor_tests.c:76 | Registration succeeds exactly when the id is within `min` to `max` and the name is a type. An id out of range is an unknown property, and a bad name is an unsupported type. The table stays well formed. |
| DataDescriptor.Descriptor.SetProperty | csky/tests/data_descriptor_tests.c:76-77 | Returns 0 and the table `Register` gives, or -1 with the table unchanged. |
| DataDescriptor.Resolve | csky/tests/data_descriptor_tests.c:78 | A failure is always an unknown property, and an id that resolves lies within `min` to `max`. |
| DataDescriptor.ResolveInitial | csky/tests/data_descriptor_tests.c:55-64 | No id resolves in a new table. |
| DataDescriptor.RegisterThenResolve | csky/tests/data_descriptor_tests.c:76-77 | After a registration, that id resolves to the registered offset and type, and every other id resolves as before. |
| DataDescriptor.RegisterOverwrites | csky/tests/data_descriptor_tests.c:76 | Registering an id twice has the effect of the second registration alone. |
| DataDescriptor.ValueFor | csky/tests/data_descriptor_tests.c:78-80 | An unresolved id gives an unknown property. A success comes from a resolved id: the registered offset, a value of the registered type, and a size of at least one byte inside the input. Any failure is an unknown property, a short buffer or a type mismatch. |
| DataDescriptor.Descriptor.SetValue | csky/tests/data_descriptor_tests.c:78-80 | Returns 0 when `ValueFor` succeeds, storing the value at the registered offset and leaving every other field unchanged, with the consumed size. Otherwise it returns -1 with the record unchanged. |
| DataDescriptor.SetIntegerValue | csky/tests/data_descriptor_tests.c:78-80 | For a registered integer id, an encoded integer at the cursor is stored whole at the registered offset. |
| DataDescriptor.SetStringValue | csky/tests/data_descriptor_tests.c:120-123 | For a registered string id, the stored view covers exactly the encoded contents in the input. |
| DataDescriptorTests.NewTable | csky/tests/data_descriptor_tests.c:55-64 | The table for -20 to 30 has 115 slots. Its first slot holds id -52, and the zero-relative view finds ids 0, 30 and 62 at their own indices. |
| DataDescriptorTests.SetInteger | csky/tests/data_descriptor_tests.c:71-83 | The offset is 8, the size 3, and the stored value 1000. |
| DataDescriptorTests.SetDouble | csky/tests/data_descriptor_tests.c:85-96 | Under id -1 the offset is 16 and the size 9, and the stored bits are those of 100.2. |
| DataDescriptorTests.SetBoolean | csky/tests/data_descriptor_tests.c:98-112 | The offset is 24. C3 stores true and C2 then stores false, one byte each. |
| DataDescriptorTests.SetString | csky/tests/data_descriptor_tests.c:114-126 | The offset is 32 and the size 4. The stored view has length 3 and starts at index 1 of the input itself. |

## Left out

- Memory management is left out: `malloc`, `free`, the `*_destroy` and `*_free` functions, and the failures of `check_mem`. Dafny allocation cannot fail.
- Missing pointers: the event data item and the buffer can be null (`EventData?`, `array?`), so their `check`s are modelled. The `length` out-pointer is modelled as an out-parameter that is always present.
- EventDataItem.Serialize: on failure it reports 0 bytes, where the C code leaves `*length` untouched.
- EventDataItem.Deserialize: the C code's failure path writes `*length = 0` without the NULL test that its success path makes. The model always has somewhere to write.
- Bounds: neither `memread` in `src/message.c` nor the one in `src/event_data.c` checks the end of the input (see the TODO at `src/message.c:80`). Reading past the end is undefined in C. The methods therefore require the input to hold every byte they read. For the EADD parse this precondition is derived from `ParseEadd`, which reports such input as `ShortBuffer`.
- Message.ParseHeader: never fails. Its failure branch is only reachable through `memread`'s own error handling, and `mem.h` is not part of this model.
- Message.EaddMessage.Parse: the end of the message computed from the header's length field (`maxptr`, see `ReadHeader`) is never consulted by the C code, so the model computes it and ignores it as well.
- Message.EaddMessage.Parse: the message's fields after a failed parse are left unspecified. In C they hold whatever was read before the failure.
- Message.EaddMessage.Parse: the data count is read as a 16-bit value, as the `ntohs` at `src/message.c:98` implies. `message.h` is not part of this model.
- Message: `message.h` is not part of this model, so two more layout facts are assumed:
  - `SKY_MESSAGE_HEADER_LENGTH` is 10, the sum of the header's field widths (`HeaderLength`).
  - The object id and the timestamp are unsigned 64-bit fields (`nat` below 2^64). If they are signed `int64_t` fields in C, ids and timestamps of 2^63 or more read there as negative numbers, which the model does not capture.
- Key and value strings are `bstring`s in C. A NULL `bstring` is treated as an empty value, and `bstrcpy` failure is part of the memory management left out.
- ValueCodec.Decode: the decoder's C source (the csky MessagePack reader) is not part of this model. The test fixtures show only successful decodes of D1 03 E8, CB + eight bytes, C3, C2 and A3 "foo". Beyond those, the model chooses the following behaviour, which no test observes:
  - tag families per the MessagePack format;
  - float 64 only (tag CB); float 32 (tag CA) is not accepted;
  - a tag outside the declared type's family is a `DecodeMismatch` failure;
  - input that ends early is a `ShortBuffer` failure. The C function takes a bare pointer with no length, as every call in the tests shows, so it cannot detect short input. Here the failure is modelled as an outcome, unlike the `memread`s of the message and event data code, where short input is excluded by a precondition.
- ValueCodec.IntegerOf: a uint 64 above the int64 range keeps its bits and reads as a negative `int64_t`, like an assignment to the `int64_t` field.
- Floating point: a double is kept as its IEEE 754 bit pattern. The test's `fabs(obj.double_value - 100.2) < 0.1` is stated as the exact bits `0x40590CCCCCCCCCCD`, the double nearest 100.2.
- The record (`test_t`) is an array of field values indexed by byte offset. Field widths, padding and overlapping writes are not modelled. `SetValue` requires the registered offset to be inside the record, where C writes through any offset.
- `src/data_descriptor.c` is not part of this model. Two things are inferred from the tests:
  - the layout of 32 spare slots on each side, from 115 slots for -20 to 30 with the first slot holding -52;
  - that the zero-relative view is indexed by id.
- The following descriptor behaviour is the model's own choice. Every call in the tests has `min <= max`, a registered id, a known type name and a value of the declared type, so no test observes any of it:
  - DataDescriptor.New: gives no table when `max < min`.
  - DataDescriptor.Register: rejects an id outside `min` to `max` as an unknown property, and a name that is not a type as an unsupported type.
  - DataDescriptor.Resolve and DataDescriptor.ValueFor: fail with an unknown property for an id that was never registered.
  - DataDescriptor.Descriptor.SetValue: returns -1 with size 0 and the record unchanged on every failure.
- The get-action message (`tests/get_action_message_tests.c`) and the EQL compiler (`src/eql/ast/function.c`, `src/eql/ast/int_literal.h`) are outside this core.
