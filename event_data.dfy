/** An event data item: a signed 16-bit property id (the key) with a byte
    string value, whose serialized form is capped at 127 value bytes. */
module EventDataItem {
  import opened Bytes

  newtype int16 = x: int | -0x8000 <= x < 0x8000

  /** The longest value that survives `clean`, and the longest data value an
      EADD message may carry. */
  const MaxValueLength: nat := 127

  /** `sizeof(int16_t)`: the width of the key in the serialized form. */
  const KeySize: nat := 2

  /** The value as `clean` leaves it: its longest prefix of at most 127 bytes. */
  function Truncated(value: seq<byte>): (r: seq<byte>)
    ensures |r| == if |value| <= MaxValueLength then |value| else MaxValueLength
    ensures r == value[..|r|]
  {
    if |value| > MaxValueLength then value[..MaxValueLength] else value
  }

  /** Cleaning a clean value changes nothing. */
  lemma TruncatedIdempotent(value: seq<byte>)
    ensures Truncated(Truncated(value)) == Truncated(value)
  {
  }

  /** The two key bytes `memwrite` copies out of an `int16_t` on this host. */
  function KeyBytes(order: ByteOrder, key: int16): (s: seq<byte>)
    ensures |s| == KeySize
  {
    Pow256Values();
    HostStore(order, TwosComplement(key as int, KeySize), KeySize)
  }

  /** The `int16_t` that `memread` fills from two key bytes on this host. */
  function KeyOf(order: ByteOrder, s: seq<byte>): int16
    requires |s| == KeySize
  {
    Pow256Values();
    FromTwosComplement(HostLoad(order, s), KeySize) as int16
  }

  lemma KeyRoundTrip(order: ByteOrder, key: int16)
    ensures KeyOf(order, KeyBytes(order, key)) == key
  {
    Pow256Values();
    HostLoadOfStore(order, TwosComplement(key as int, KeySize), KeySize);
    SignedRoundTrip(key as int, KeySize);
  }

  lemma KeyBytesOfKey(order: ByteOrder, s: seq<byte>)
    requires |s| == KeySize
    ensures KeyBytes(order, KeyOf(order, s)) == s
  {
    Pow256Values();
    UnsignedRoundTrip(HostLoad(order, s), KeySize);
    HostStoreOfLoad(order, s);
  }

  /** The bytes `EventData_serialize` writes: the key, one byte holding the
      length of the cleaned value, then the cleaned value. */
  function Serialized(order: ByteOrder, key: int16, value: seq<byte>): (s: seq<byte>)
    ensures |s| == KeySize + 1 + |Truncated(value)| <= KeySize + 1 + MaxValueLength
    ensures s[..KeySize] == KeyBytes(order, key)
    ensures s[KeySize] as int == |Truncated(value)|
    ensures s[KeySize + 1..] == Truncated(value)
  {
    var v := Truncated(value);
    KeyBytes(order, key) + [|v| as byte] + v
  }

  /** Whether `s` begins with a whole serialized item: a key, a length byte
      and as many value bytes as that byte says. */
  predicate HoldsItem(s: seq<byte>) {
    |s| >= KeySize + 1 && |s| >= KeySize + 1 + s[KeySize] as int
  }

  /** The number of bytes the item at the head of `s` occupies. */
  function ItemLength(s: seq<byte>): nat
    requires HoldsItem(s)
  {
    KeySize + 1 + s[KeySize] as nat
  }

  datatype Item = Item(key: int16, value: seq<byte>)

  /** What `EventData_deserialize` reads from the head of `s`. */
  function Deserialized(order: ByteOrder, s: seq<byte>): (item: Item)
    requires HoldsItem(s)
    ensures KeySize + 1 + |item.value| == ItemLength(s)
  {
    Item(KeyOf(order, s[..KeySize]), s[KeySize + 1..ItemLength(s)])
  }

  /** Deserializing what was serialized gives back the key and the cleaned
      value, and reads exactly the bytes that were written. */
  lemma SerializeRoundTrip(order: ByteOrder, key: int16, value: seq<byte>, rest: seq<byte>)
    ensures HoldsItem(Serialized(order, key, value) + rest)
    ensures ItemLength(Serialized(order, key, value) + rest) == |Serialized(order, key, value)|
    ensures Deserialized(order, Serialized(order, key, value) + rest) == Item(key, Truncated(value))
  {
    var w := Serialized(order, key, value);
    var s := w + rest;
    assert s[..KeySize] == KeyBytes(order, key);
    KeyRoundTrip(order, key);
    assert s[KeySize + 1..ItemLength(s)] == w[KeySize + 1..];
  }

  /** Serializing what was deserialized gives back the bytes that were read,
      provided the length byte is one `clean` lets through. */
  lemma DeserializeRoundTrip(order: ByteOrder, s: seq<byte>)
    requires HoldsItem(s) && s[KeySize] as int <= MaxValueLength
    ensures Serialized(order, Deserialized(order, s).key, Deserialized(order, s).value) == s[..ItemLength(s)]
  {
    var item := Deserialized(order, s);
    KeyBytesOfKey(order, s[..KeySize]);
    var w := Serialized(order, item.key, item.value);
    assert w == s[..KeySize] + [s[KeySize]] + s[KeySize + 1..ItemLength(s)];
  }

  class EventData {
    var key: int16
    var value: seq<byte>

    /** `EventData_create`: a new item holding the key and a copy of the value. */
    constructor (key: int16, value: seq<byte>)
      ensures this.key == key && this.value == value
    {
      this.key := key;
      this.value := value;
    }

    /** `clean`: replaces a value longer than 127 bytes by its first 127 bytes. */
    method Clean()
      modifies this
      ensures key == old(key) && value == Truncated(old(value))
    {
      if |value| > MaxValueLength {
        value := value[..MaxValueLength];
      }
    }

    /** `EventData_get_serialized_length`: cleans the item, then counts the
        key, the length byte and the value. */
    method SerializedLength() returns (length: nat)
      modifies this
      ensures key == old(key) && value == Truncated(old(value))
      ensures length == KeySize + 1 + |value| <= KeySize + 1 + MaxValueLength
      ensures forall order: ByteOrder :: length == |Serialized(order, key, old(value))|
    {
      Clean();
      length := 0;
      length := length + KeySize;
      length := length + 1;
      length := length + |value|;
    }
  }

  /** `EventData_serialize`: fails with -1 when the item or the address is
      missing; otherwise cleans the item, writes its serialized form at `pos`
      and reports how many bytes it wrote. */
  method Serialize(data: EventData?, buf: array?<byte>, pos: nat, order: ByteOrder)
    returns (rc: int, length: nat)
    requires data != null && buf != null ==> pos + KeySize + 1 + |Truncated(data.value)| <= buf.Length
    modifies data, buf
    ensures rc == 0 || rc == -1
    ensures rc == 0 <==> data != null && buf != null
    ensures rc == -1 ==> length == 0 && (data != null ==> unchanged(data)) && (buf != null ==> unchanged(buf))
    ensures rc == 0 ==> data.key == old(data.key) && data.value == Truncated(old(data.value))
    ensures rc == 0 ==> length == |Serialized(order, data.key, old(data.value))|
    ensures rc == 0 ==>
      buf[..] == old(buf[..pos]) + Serialized(order, data.key, old(data.value)) + old(buf[pos + length..])
  {
    if data == null || buf == null {
      return -1, 0;
    }
    var start := pos;
    data.Clean();
    var addr := WriteItem(buf, pos, order, data.key, data.value);
    length := addr - start;
    rc := 0;
  }

  /** The three `memwrite`s of `EventData_serialize` for a cleaned value: the
      key in host order, the value length as one byte, then the value bytes. */
  method WriteItem(buf: array<byte>, pos: nat, order: ByteOrder, key: int16, value: seq<byte>)
    returns (next: nat)
    requires |value| <= MaxValueLength
    requires pos + KeySize + 1 + |value| <= buf.Length
    modifies buf
    ensures next == pos + |Serialized(order, key, value)|
    ensures buf[..] == old(buf[..pos]) + Serialized(order, key, value) + old(buf[next..])
  {
    ghost var b0 := buf[..];
    var addr := pos;
    var keyBytes := KeyBytes(order, key);
    addr := MemWrite(buf, addr, keyBytes);
    ghost var b1 := buf[..];
    var valueLength := (|value| % 256) as byte;
    addr := MemWrite(buf, addr, [valueLength]);
    ghost var b2 := buf[..];
    addr := MemWrite(buf, addr, value[..valueLength]);
    assert value[..valueLength] == value;
    assert Serialized(order, key, value) == keyBytes + [valueLength] + value by {
      assert Truncated(value) == value;
    }
    ThreeWrites(b0, b1, b2, buf[..], pos, keyBytes, [valueLength], value);
    next := addr;
  }

  /** `EventData_deserialize`: fails with -1, reporting 0 bytes, when the item
      or the address is missing; otherwise reads a key, a length byte and that
      many value bytes at `pos` into the item and reports how many bytes it read. */
  method Deserialize(data: EventData?, buf: array?<byte>, pos: nat, order: ByteOrder)
    returns (rc: int, length: nat)
    requires data != null && buf != null ==> pos <= buf.Length && HoldsItem(buf[pos..])
    modifies data
    ensures rc == 0 || rc == -1
    ensures rc == 0 <==> data != null && buf != null
    ensures rc == -1 ==> length == 0 && (data != null ==> unchanged(data))
    ensures rc == 0 ==> length == ItemLength(buf[pos..])
    ensures rc == 0 ==> Item(data.key, data.value) == Deserialized(order, buf[pos..])
  {
    if data == null || buf == null {
      return -1, 0;
    }
    var start := pos;
    var addr := pos;
    ghost var s := buf[pos..];
    assert s[..KeySize] == buf[pos..pos + KeySize] && s[KeySize] == buf[pos + KeySize];
    data.key := KeyOf(order, buf[addr..addr + KeySize]);
    addr := addr + KeySize;
    var valueLength := buf[addr];
    addr := addr + 1;
    data.value := buf[addr..addr + valueLength as int];
    addr := addr + valueLength as int;
    assert data.value == s[KeySize + 1..ItemLength(s)];
    length := addr - start;
    rc := 0;
  }

  /** `EventData_copy`: fails with -1 and no target when the source is
      missing; otherwise a new item with the source's key and value. */
  method Copy(source: EventData?) returns (rc: int, target: EventData?)
    ensures source == null ==> rc == -1 && target == null
    ensures source != null ==> rc == 0 && target != null && fresh(target)
    ensures source != null ==> target.key == source.key && target.value == source.value
  {
    if source == null {
      return -1, null;
    }
    target := new EventData(source.key, source.value);
    rc := 0;
  }

  /** An item serialized into a buffer and deserialized from it into another
      item: the second holds the first's key and cleaned value, and the bytes
      read are the bytes written. */
  method SerializeThenDeserialize(source: EventData, target: EventData, buf: array<byte>, pos: nat, order: ByteOrder)
    returns (written: nat, read: nat)
    requires pos + KeySize + 1 + |Truncated(source.value)| <= buf.Length
    modifies source, target, buf
    ensures read == written
    ensures target.key == old(source.key) && target.value == Truncated(old(source.value))
  {
    var rc;
    rc, written := Serialize(source, buf, pos, order);
    ghost var w := Serialized(order, source.key, old(source.value));
    assert buf[pos..] == w + buf[pos + written..];
    SerializeRoundTrip(order, source.key, old(source.value), buf[pos + written..]);
    rc, read := Deserialize(target, buf, pos, order);
  }
}
