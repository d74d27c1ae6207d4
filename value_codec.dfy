/** The value codec behind `sky_data_descriptor_set_value`: one MessagePack
    value at a cursor. The tag byte selects the format family, a fixed-width
    field in network byte order may follow (the payload of a number, or the
    length of a string), and the decoder reports the value together with the
    number of bytes it consumed. Strings are not copied: a decoded string is a
    view, a start index and a length, into the input. */
module ValueCodec {
  import opened Bytes
  import opened Status

  /** The declared type of a property. */
  datatype PropertyType = IntegerType | FloatType | BooleanType | StringType

  /** The name under which `sky_data_descriptor_set_property` registers a type. */
  function NameOf(t: PropertyType): (name: string)
  {
    match t
    case IntegerType => "integer"
    case FloatType => "float"
    case BooleanType => "boolean"
    case StringType => "string"
  }

  /** The type a registration name denotes; any other name is rejected. */
  function TypeNamed(name: string): (t: Option<PropertyType>)
    ensures t.Some? <==> name == "integer" || name == "float" || name == "boolean" || name == "string"
    ensures t.Some? ==> NameOf(t.value) == name
  {
    if name == "integer" then Some(IntegerType)
    else if name == "float" then Some(FloatType)
    else if name == "boolean" then Some(BooleanType)
    else if name == "string" then Some(StringType)
    else None
  }

  /** Every type is registered under its own name. */
  lemma TypeNamedOfName(t: PropertyType)
    ensures TypeNamed(NameOf(t)) == Some(t)
  {
    match t
    case IntegerType =>
    case FloatType =>
    case BooleanType =>
    case StringType =>
  }

  /** A decoded value as it is stored in a record field. */
  datatype Value =
    | IntValue(i: int)                      // an int64_t field
    | FloatValue(bits: nat)                 // a double field, as its IEEE 754 bit pattern
    | BoolValue(b: bool)                    // a bool field
    | StringValue(start: nat, length: nat)  // a sky_string: a view into the input

  predicate HasType(v: Value, t: PropertyType)
  {
    match t
    case IntegerType => v.IntValue? && InSignedRange(v.i, 8)
    case FloatType => v.FloatValue? && v.bits < Pow256(8)
    case BooleanType => v.BoolValue?
    case StringType => v.StringValue?
  }

  /** The tags of each family: positive and negative fixint, uint 8/16/32/64
      and int 8/16/32/64; float 64; false and true; fixstr and str 8/16/32. */
  predicate InFamily(tag: byte, t: PropertyType)
  {
    match t
    case IntegerType => tag <= 0x7f || 0xe0 <= tag || 0xcc <= tag <= 0xd3
    case FloatType => tag == 0xcb
    case BooleanType => tag == 0xc2 || tag == 0xc3
    case StringType => 0xa0 <= tag <= 0xbf || 0xd9 <= tag <= 0xdb
  }

  /** The width of the big-endian field that follows a tag: the payload of a
      number, or the length of a string. Tags that carry their value or
      length in their own bits have none. */
  function FieldWidth(tag: byte): (w: nat)
    ensures w == 0 || w == 1 || w == 2 || w == 4 || w == 8
  {
    if tag == 0xcc || tag == 0xd0 || tag == 0xd9 then 1
    else if tag == 0xcd || tag == 0xd1 || tag == 0xda then 2
    else if tag == 0xce || tag == 0xd2 || tag == 0xdb then 4
    else if tag == 0xcf || tag == 0xd3 || tag == 0xcb then 8
    else 0
  }

  /** The 64-bit signed integer an integer tag and its payload denote. The
      unsigned formats are zero-extended, so a uint 64 above the int64 range
      keeps its bits and reads as negative; the signed formats are
      sign-extended. */
  function IntegerOf(tag: byte, payload: seq<byte>): (x: int)
    requires InFamily(tag, IntegerType) && |payload| == FieldWidth(tag)
    ensures InSignedRange(x, 8)
  {
    Pow256Values();
    if tag <= 0x7f then tag as int
    else if 0xe0 <= tag then tag as int - 256
    else if tag <= 0xcf then FromTwosComplement(BigEndian(payload), 8)
    else FromTwosComplement(BigEndian(payload), |payload|)
  }

  /** The byte length of a string: in the low five bits of a fixstr tag,
      otherwise in the field after the tag. */
  function StringLength(tag: byte, field: seq<byte>): nat
    requires InFamily(tag, StringType)
  {
    if tag <= 0xbf then (tag - 0xa0) as nat else BigEndian(field)
  }

  /** Decodes the value of declared type `t` whose tag is at `pos`, giving the
      value and the number of bytes it occupies. A tag of another family is a
      mismatch; input that ends before the value does is a short buffer. */
  function Decode(buf: seq<byte>, pos: nat, t: PropertyType): (r: Result<(Value, nat)>)
    ensures r.Success? ==> 1 <= r.value.1 && pos + r.value.1 <= |buf| && HasType(r.value.0, t)
    ensures r.Success? && t == StringType ==>
      r.value.0.start + r.value.0.length == pos + r.value.1 && pos < r.value.0.start
    ensures r.Failure? ==> r.error == ShortBuffer || r.error == DecodeMismatch
    ensures r == Failure(DecodeMismatch) <==> pos < |buf| && !InFamily(buf[pos], t)
  {
    if pos >= |buf| then Failure(ShortBuffer)
    else
      var tag := buf[pos];
      if !InFamily(tag, t) then Failure(DecodeMismatch)
      else
        var w := FieldWidth(tag);
        if pos + 1 + w > |buf| then Failure(ShortBuffer)
        else
          var field := buf[pos + 1..pos + 1 + w];
          match t
          case IntegerType => Success((IntValue(IntegerOf(tag, field)), 1 + w))
          case FloatType => Success((FloatValue(BigEndian(field)), 1 + w))
          case BooleanType => Success((BoolValue(tag == 0xc3), 1))
          case StringType =>
            var length := StringLength(tag, field);
            if pos + 1 + w + length > |buf| then Failure(ShortBuffer)
            else Success((StringValue(pos + 1 + w, length), 1 + w + length))
  }

  // ---------------------------------------------------------------------------
  // Encoders: the partners of Decode.
  // ---------------------------------------------------------------------------

  /** The shortest encoding of a 64-bit signed integer: a fixint when it fits,
      otherwise the narrowest signed format. */
  function EncodeInteger(x: int): (e: seq<byte>)
    requires InSignedRange(x, 8)
    ensures 1 <= |e| <= 9 && InFamily(e[0], IntegerType) && |e| == 1 + FieldWidth(e[0])
  {
    if 0 <= x < 0x80 then [x as byte]
    else if -0x20 <= x < 0 then [(x + 0x100) as byte]
    else if InSignedRange(x, 1) then [0xd0] + ToBigEndian(TwosComplement(x, 1), 1)
    else if InSignedRange(x, 2) then [0xd1] + ToBigEndian(TwosComplement(x, 2), 2)
    else if InSignedRange(x, 4) then [0xd2] + ToBigEndian(TwosComplement(x, 4), 4)
    else [0xd3] + ToBigEndian(TwosComplement(x, 8), 8)
  }

  function EncodeFloat(bits: nat): (e: seq<byte>)
    requires bits < Pow256(8)
    ensures |e| == 9 && e[0] == 0xcb
  {
    [0xcb] + ToBigEndian(bits, 8)
  }

  function EncodeBoolean(b: bool): (e: seq<byte>)
    ensures |e| == 1 && InFamily(e[0], BooleanType)
  {
    if b then [0xc3] else [0xc2]
  }

  /** The bytes before a string's contents: a fixstr tag when the length fits
      in five bits, otherwise the narrowest str format and its length field. */
  function StringHeader(length: nat): (h: seq<byte>)
    requires length < Pow256(4)
    ensures 1 <= |h| && InFamily(h[0], StringType) && |h| == 1 + FieldWidth(h[0])
  {
    Pow256Values();
    if length < 0x20 then [(0xa0 + length) as byte]
    else if length < 0x100 then [0xd9] + ToBigEndian(length, 1)
    else if length < 0x1_0000 then [0xda] + ToBigEndian(length, 2)
    else [0xdb] + ToBigEndian(length, 4)
  }

  function EncodeString(s: seq<byte>): (e: seq<byte>)
    requires |s| < Pow256(4)
  {
    StringHeader(|s|) + s
  }

  // ---------------------------------------------------------------------------
  // Round trips: decoding an encoding found at `pos` gives back the value and
  // consumes exactly the encoding.
  // ---------------------------------------------------------------------------

  /** Any integer encoding located at `pos` decodes to what its tag and
      payload denote. */
  lemma {:induction false} IntegerAt(buf: seq<byte>, pos: nat, e: seq<byte>)
    requires 1 <= |e| && InFamily(e[0], IntegerType) && |e| == 1 + FieldWidth(e[0])
    requires pos + |e| <= |buf| && buf[pos..pos + |e|] == e
    ensures Decode(buf, pos, IntegerType) == Success((IntValue(IntegerOf(e[0], e[1..])), |e|))
  {
    assert buf[pos] == e[0];
    assert buf[pos + 1..pos + |e|] == e[1..];
  }

  /** The payload of the encoding of `x` denotes `x`. */
  lemma {:induction false} IntegerOfEncoding(x: int)
    requires InSignedRange(x, 8)
    ensures IntegerOf(EncodeInteger(x)[0], EncodeInteger(x)[1..]) == x
  {
    var e := EncodeInteger(x);
    var w := |e| - 1;
    if w > 0 {
      var u := TwosComplement(x, w);
      assert e[1..] == ToBigEndian(u, w);
      BigEndianOfToBigEndian(u, w);
      SignedRoundTrip(x, w);
    }
  }

  lemma {:induction false} IntegerRoundTrip(buf: seq<byte>, pos: nat, x: int)
    requires InSignedRange(x, 8)
    requires pos + |EncodeInteger(x)| <= |buf| && buf[pos..pos + |EncodeInteger(x)|] == EncodeInteger(x)
    ensures Decode(buf, pos, IntegerType) == Success((IntValue(x), |EncodeInteger(x)|))
  {
    IntegerOfEncoding(x);
    IntegerAt(buf, pos, EncodeInteger(x));
  }

  lemma {:induction false} FloatRoundTrip(buf: seq<byte>, pos: nat, bits: nat)
    requires bits < Pow256(8)
    requires pos + 9 <= |buf| && buf[pos..pos + 9] == EncodeFloat(bits)
    ensures Decode(buf, pos, FloatType) == Success((FloatValue(bits), 9))
  {
    var e := EncodeFloat(bits);
    assert buf[pos] == e[0];
    assert buf[pos + 1..pos + 9] == e[1..] == ToBigEndian(bits, 8);
    BigEndianOfToBigEndian(bits, 8);
  }

  lemma BooleanRoundTrip(buf: seq<byte>, pos: nat, b: bool)
    requires pos + 1 <= |buf| && buf[pos..pos + 1] == EncodeBoolean(b)
    ensures Decode(buf, pos, BooleanType) == Success((BoolValue(b), 1))
  {
    assert buf[pos] == EncodeBoolean(b)[0];
  }

  /** A string header located at `pos` and followed by the contents decodes
      to a view of exactly those contents. */
  lemma {:induction false} StringAt(buf: seq<byte>, pos: nat, h: seq<byte>, s: seq<byte>)
    requires 1 <= |h| && InFamily(h[0], StringType) && |h| == 1 + FieldWidth(h[0])
    requires StringLength(h[0], h[1..]) == |s|
    requires pos + |h| + |s| <= |buf| && buf[pos..pos + |h| + |s|] == h + s
    ensures Decode(buf, pos, StringType) == Success((StringValue(pos + |h|, |s|), |h| + |s|))
    ensures buf[pos + |h|..pos + |h| + |s|] == s
  {
    var e := h + s;
    assert buf[pos] == e[0] == h[0];
    SubSlice(buf, pos, e, 1, |h|);
    assert e[1..|h|] == h[1..];
    SubSlice(buf, pos, e, |h|, |e|);
    assert e[|h|..|e|] == s;
  }

  /** The header of a string of `length` bytes announces that length. */
  lemma {:induction false} StringLengthOfHeader(length: nat)
    requires length < Pow256(4)
    ensures StringLength(StringHeader(length)[0], StringHeader(length)[1..]) == length
  {
    var h := StringHeader(length);
    var w := |h| - 1;
    if w > 0 {
      assert h[1..] == ToBigEndian(length, w);
      BigEndianOfToBigEndian(length, w);
    }
  }

  /** A decoded string is a view of exactly the encoded contents. */
  lemma {:induction false} StringRoundTrip(buf: seq<byte>, pos: nat, s: seq<byte>)
    requires |s| < Pow256(4)
    requires pos + |EncodeString(s)| <= |buf| && buf[pos..pos + |EncodeString(s)|] == EncodeString(s)
    ensures var h := |StringHeader(|s|)|;
      Decode(buf, pos, StringType) == Success((StringValue(pos + h, |s|), h + |s|))
      && buf[pos + h..pos + h + |s|] == s
  {
    StringLengthOfHeader(|s|);
    StringAt(buf, pos, StringHeader(|s|), s);
  }

  // ---------------------------------------------------------------------------
  // The encodings the descriptor tests feed to set_value.
  // ---------------------------------------------------------------------------

  /** `D1 03 E8` is the int 16 value 1000, three bytes long. */
  lemma IntegerExample()
    ensures Decode([0xd1, 0x03, 0xe8], 0, IntegerType) == Success((IntValue(1000), 3))
  {
    var buf: seq<byte> := [0xd1, 0x03, 0xe8];
    assert buf[1..3] == [0x03, 0xe8];
    assert BigEndian([0x03, 0xe8]) == 1000 by {
      assert [0x03, 0xe8][..1] == [0x03];
      assert BigEndian([0x03]) == 3 by {
        assert [0x03][..0] == [];
      }
    }
    Pow256Values();
  }

  /** `CB` and eight bytes is the float 64 with those bits, nine bytes long. */
  lemma FloatExample()
    ensures var buf: seq<byte> := [0xcb, 0x40, 0x59, 0x0c, 0xcc, 0xcc, 0xcc, 0xcc, 0xcd];
      Decode(buf, 0, FloatType) == Success((FloatValue(0x4059_0ccc_cccc_cccd), 9))
  {
    var buf: seq<byte> := [0xcb, 0x40, 0x59, 0x0c, 0xcc, 0xcc, 0xcc, 0xcc, 0xcd];
    var bits: nat := 0x4059_0ccc_cccc_cccd;
    ToBigEndianBytes8(bits);
    assert buf[0..9] == [0xcb] + ToBigEndian(bits, 8);
    FloatRoundTrip(buf, 0, bits);
  }

  /** The eight big-endian bytes of the double in the float example. */
  lemma ToBigEndianBytes8(bits: nat)
    requires bits == 0x4059_0ccc_cccc_cccd
    ensures bits < Pow256(8)
    ensures ToBigEndian(bits, 8) == [0x40, 0x59, 0x0c, 0xcc, 0xcc, 0xcc, 0xcc, 0xcd]
  {
    Pow256Values();
    assert ToBigEndian(0x40, 1) == [0x40];
    assert ToBigEndian(0x4059, 2) == [0x40, 0x59];
    assert ToBigEndian(0x40_590c, 3) == [0x40, 0x59, 0x0c];
    assert ToBigEndian(0x4059_0ccc, 4) == [0x40, 0x59, 0x0c, 0xcc];
    assert ToBigEndian(0x40_590c_cccc, 5) == [0x40, 0x59, 0x0c, 0xcc, 0xcc];
    assert ToBigEndian(0x4059_0ccc_cccc, 6) == [0x40, 0x59, 0x0c, 0xcc, 0xcc, 0xcc];
    assert ToBigEndian(0x40_590c_cccc_cccc, 7) == [0x40, 0x59, 0x0c, 0xcc, 0xcc, 0xcc, 0xcc];
  }

  /** `C3` is true and `C2` is false, one byte each. */
  lemma BooleanExamples()
    ensures Decode([0xc3], 0, BooleanType) == Success((BoolValue(true), 1))
    ensures Decode([0xc2], 0, BooleanType) == Success((BoolValue(false), 1))
  {
    var t: seq<byte> := [0xc3];
    var f: seq<byte> := [0xc2];
    assert t[0] == 0xc3 && f[0] == 0xc2;
  }

  /** `A3 'f' 'o' 'o'` is a view of the three bytes after the tag, four bytes
      consumed. */
  lemma StringExample()
    ensures var buf: seq<byte> := [0xa3, 0x66, 0x6f, 0x6f];
      Decode(buf, 0, StringType) == Success((StringValue(1, 3), 4)) && buf[1..4] == [0x66, 0x6f, 0x6f]
  {
    var buf: seq<byte> := [0xa3, 0x66, 0x6f, 0x6f];
    assert buf[0] == 0xa3;
  }
}
