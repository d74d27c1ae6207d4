/** The wire messages between a client and the storage engine: the fixed
    header that precedes every message, and the EADD ("add event") message
    whose body carries an object id, a timestamp, an action name and a list
    of key/value data items. Every multi-byte integer is in network byte order. */
module Message {
  import opened Bytes
  import opened Status
  import EventDataItem

  /** `SKY_MESSAGE_HEADER_LENGTH`: version (2 bytes), type (4) and length (4). */
  const HeaderLength: nat := 10

  //======================================
  // Header
  //======================================

  datatype Header = Header(version: nat, messageType: nat, length: nat)

  /** The field widths: a 16-bit version, a 32-bit type and a 32-bit length. */
  predicate ValidHeader(h: Header) {
    h.version < 0x1_0000 && h.messageType < 0x1_0000_0000 && h.length < 0x1_0000_0000
  }

  /** The header the first `HeaderLength` bytes of `s` hold: the version in
      bytes 0-1, the type in bytes 2-5, the length in bytes 6-9. */
  function DecodeHeader(s: seq<byte>): (h: Header)
    requires |s| >= HeaderLength
    ensures ValidHeader(h)
  {
    Pow256Values();
    Header(BigEndian(s[0..2]), BigEndian(s[2..6]), BigEndian(s[6..10]))
  }

  function EncodeHeader(h: Header): (s: seq<byte>)
    requires ValidHeader(h)
    ensures |s| == HeaderLength
  {
    Pow256Values();
    ToBigEndian(h.version, 2) + ToBigEndian(h.messageType, 4) + ToBigEndian(h.length, 4)
  }

  /** Decoding an encoded header, whatever follows it, gives the header back. */
  lemma {:induction false} HeaderRoundTrip(h: Header, rest: seq<byte>)
    requires ValidHeader(h)
    ensures DecodeHeader(EncodeHeader(h) + rest) == h
  {
    Pow256Values();
    var s := EncodeHeader(h) + rest;
    assert s[0..2] == ToBigEndian(h.version, 2);
    assert s[2..6] == ToBigEndian(h.messageType, 4);
    assert s[6..10] == ToBigEndian(h.length, 4);
    BigEndianOfToBigEndian(h.version, 2);
    BigEndianOfToBigEndian(h.messageType, 4);
    BigEndianOfToBigEndian(h.length, 4);
  }

  /** Encoding a decoded header gives back the ten bytes it was read from. */
  lemma {:induction false} HeaderBytesRoundTrip(s: seq<byte>)
    requires |s| >= HeaderLength
    ensures EncodeHeader(DecodeHeader(s)) == s[..HeaderLength]
  {
    ToBigEndianOfBigEndian(s[0..2]);
    ToBigEndianOfBigEndian(s[2..6]);
    ToBigEndianOfBigEndian(s[6..10]);
    assert s[..HeaderLength] == s[0..2] + s[2..6] + s[6..10];
  }

  /** The bytes of version 1, type 2, length 10 in network order parse to
      exactly those values. */
  lemma {:induction false} HeaderExample()
    ensures DecodeHeader([0x00, 0x01, 0x00, 0x00, 0x00, 0x02, 0x00, 0x00, 0x00, 0x0A]) == Header(1, 2, 10)
  {
    var h := Header(1, 2, 10);
    HeaderRoundTrip(h, []);
    assert EncodeHeader(h) + [] == [0x00, 0x01, 0x00, 0x00, 0x00, 0x02, 0x00, 0x00, 0x00, 0x0A];
  }

  /** `sky_message_header_parse`: reads the version, the type and the length
      in that order, each copied natively out of the buffer and then
      converted from network byte order. */
  method ParseHeader(buf: seq<byte>, ptr: nat, order: ByteOrder) returns (rc: int, header: Header)
    requires ptr + HeaderLength <= |buf|
    ensures rc == 0
    ensures header == DecodeHeader(buf[ptr..])
  {
    Pow256Values();
    var p := ptr;

    var version := HostLoad(order, buf[p..p + 2]);
    p := p + 2;
    version := NetworkToHost(order, version, 2);

    var messageType := HostLoad(order, buf[p..p + 4]);
    p := p + 4;
    messageType := NetworkToHost(order, messageType, 4);

    var length := HostLoad(order, buf[p..p + 4]);
    p := p + 4;
    length := NetworkToHost(order, length, 4);

    NetworkToHostOfLoad(order, buf[ptr..ptr + 2]);
    NetworkToHostOfLoad(order, buf[ptr + 2..ptr + 6]);
    NetworkToHostOfLoad(order, buf[ptr + 6..ptr + 10]);
    SuffixSlice(buf, ptr, 0, 2);
    SuffixSlice(buf, ptr, 2, 6);
    SuffixSlice(buf, ptr, 6, 10);
    header := Header(version, messageType, length);
    rc := 0;
  }

  //======================================
  // EADD
  //======================================

  /** The 16-bit unsigned integer at `p`, in network byte order. It is
      `BigEndian(buf[p..p + 2])` (see `Uint16AtIsBigEndian`), written in closed
      form so that the parse proofs need not unfold the recursive `BigEndian`. */
  function Uint16At(buf: seq<byte>, p: nat): (n: nat)
    requires p + 2 <= |buf|
    ensures n < 0x1_0000
  {
    buf[p] as nat * 256 + buf[p + 1] as nat
  }

  /** The two bytes of `n` in network byte order. */
  function Uint16Bytes(n: nat): (s: seq<byte>)
    requires n < 0x1_0000
    ensures |s| == 2
  {
    [(n / 256) as byte, (n % 256) as byte]
  }

  lemma {:induction false} Uint16RoundTrip(n: nat, buf: seq<byte>, p: nat)
    requires n < 0x1_0000 && p + 2 <= |buf| && buf[p..p + 2] == Uint16Bytes(n)
    ensures Uint16At(buf, p) == n
  {
    assert buf[p] == buf[p..p + 2][0] && buf[p + 1] == buf[p..p + 2][1];
  }

  lemma {:induction false} Uint16BytesOfAt(buf: seq<byte>, p: nat)
    requires p + 2 <= |buf|
    ensures Uint16Bytes(Uint16At(buf, p)) == buf[p..p + 2]
  {
    DivMod256(buf[p] as nat, buf[p + 1] as nat);
  }

  /** `Uint16At` is the big-endian value of the two bytes. */
  lemma {:induction false} Uint16AtIsBigEndian(buf: seq<byte>, p: nat)
    requires p + 2 <= |buf|
    ensures Uint16At(buf, p) == BigEndian(buf[p..p + 2])
  {
    var s := buf[p..p + 2];
    assert s[..1][..0] == [];
    assert s[..1] == [buf[p]];
  }

  datatype DataItem = DataItem(key: seq<byte>, value: seq<byte>)

  datatype EaddBody = EaddBody(objectId: nat, timestamp: nat, actionName: seq<byte>, items: seq<DataItem>)

  /** A data item whose lengths fit their prefixes: 16 bits for the key,
      8 bits for the value. */
  predicate EncodableItem(item: DataItem) {
    |item.key| < 0x1_0000 && |item.value| < 0x100
  }

  /** A data item's wire form: key length, key, value length, value. */
  function EncodeDataItem(item: DataItem): (s: seq<byte>)
    requires EncodableItem(item)
    ensures |s| == ItemSize(item)
  {
    Uint16Bytes(|item.key|) + item.key + [|item.value| as byte] + item.value
  }

  /** The number of bytes a data item occupies on the wire. */
  function ItemSize(item: DataItem): nat {
    2 + |item.key| + 1 + |item.value|
  }

  function EncodeDataItems(items: seq<DataItem>): (s: seq<byte>)
    requires AllEncodable(items)
  {
    if items == [] then []
    else EncodeDataItems(items[..|items| - 1]) + EncodeDataItem(items[|items| - 1])
  }

  function TotalSize(items: seq<DataItem>): nat {
    if items == [] then 0 else TotalSize(items[..|items| - 1]) + ItemSize(items[|items| - 1])
  }

  /** Whether every item's lengths fit their wire prefixes. */
  predicate AllEncodable(items: seq<DataItem>) {
    items == [] || (AllEncodable(items[..|items| - 1]) && EncodableItem(items[|items| - 1]))
  }

  /** Whether every value is short enough for an EADD message. */
  predicate ValuesFit(items: seq<DataItem>) {
    items == [] || (ValuesFit(items[..|items| - 1]) && |items[|items| - 1].value| <= EventDataItem.MaxValueLength)
  }

  /** `ValuesFit` holds exactly when no value exceeds 127 bytes. */
  lemma {:induction false} ValuesFitMeans(items: seq<DataItem>)
    ensures ValuesFit(items) <==> forall i :: 0 <= i < |items| ==> |items[i].value| <= EventDataItem.MaxValueLength
  {
    if items != [] {
      var init := items[..|items| - 1];
      ValuesFitMeans(init);
      assert forall i :: 0 <= i < |init| ==> init[i] == items[i];
    }
  }

  /** One iteration of the data loop of `sky_eadd_message_parse`, from cursor
      `p`: a 16-bit key length and the key, a one-byte value length (rejected
      from 128 up, before the value is read) and the value. The result holds
      the item and the cursor after it. */
  function ParseDataItem(buf: seq<byte>, p: nat): (r: Result<(DataItem, nat)>)
    ensures r.Success? ==> p + ItemSize(r.value.0) == r.value.1 <= |buf|
    ensures r.Success? ==> |r.value.0.value| <= EventDataItem.MaxValueLength && EncodableItem(r.value.0)
    ensures r.Failure? ==> r.error == ShortBuffer || r.error == ValueTooLarge
  {
    if |buf| < p + 2 then Failure(ShortBuffer)
    else
      var keyLength := Uint16At(buf, p);
      var keyEnd := p + 2 + keyLength;
      if |buf| < keyEnd + 1 then Failure(ShortBuffer)
      else
        var valueLength := buf[keyEnd] as nat;
        if valueLength > EventDataItem.MaxValueLength then Failure(ValueTooLarge)
        else if |buf| < keyEnd + 1 + valueLength then Failure(ShortBuffer)
        else
          var item := DataItem(buf[p + 2..keyEnd], buf[keyEnd + 1..keyEnd + 1 + valueLength]);
          Success((item, keyEnd + 1 + valueLength))
  }

  /** The bytes one iteration of the data loop consumed are exactly the
      encoding of the item it produced. */
  lemma {:induction false} ParseDataItemBytes(buf: seq<byte>, p: nat)
    requires ParseDataItem(buf, p).Success?
    ensures var (item, end) := ParseDataItem(buf, p).value;
      buf[p..end] == EncodeDataItem(item)
  {
    var (item, end) := ParseDataItem(buf, p).value;
    Uint16BytesOfAt(buf, p);
    assert buf[p..end] == buf[p..p + 2] + item.key + [buf[p + 2 + |item.key|]] + item.value;
  }

  /** The first `n` iterations of the data loop, from cursor `p`: the items in
      input order and the cursor after the last. The first failing item ends
      the parse. */
  function ParseDataItems(buf: seq<byte>, p: nat, n: nat): (r: Result<(seq<DataItem>, nat)>)
    ensures r.Success? ==> |r.value.0| == n && p <= r.value.1 <= |buf|
    ensures r.Failure? ==> r.error == ShortBuffer || r.error == ValueTooLarge
  {
    if n == 0 then (if p <= |buf| then Success(([], p)) else Failure(ShortBuffer))
    else
      var before := ParseDataItems(buf, p, n - 1);
      if before.Failure? then Failure(before.error)
      else
        var next := ParseDataItem(buf, before.value.1);
        if next.Failure? then Failure(next.error)
        else Success((before.value.0 + [next.value.0], next.value.1))
  }

  /** The EADD message at the start of `buf`: the header, then the object id
      and the timestamp (64 bits each), a 16-bit length and the action name,
      a 16-bit data count and that many data items. The result holds the body
      and the number of bytes read from the start of the message. */
  function ParseEadd(buf: seq<byte>): (r: Result<(EaddBody, nat)>)
    ensures r.Failure? ==> r.error == ShortBuffer || r.error == ValueTooLarge
  {
    if |buf| < HeaderLength + 8 + 8 + 2 then Failure(ShortBuffer)
    else
      var p := HeaderLength;
      var objectId := BigEndian(buf[p..p + 8]);
      var timestamp := BigEndian(buf[p + 8..p + 16]);
      var nameLength := Uint16At(buf, p + 16);
      var nameEnd := p + 18 + nameLength;
      if |buf| < nameEnd + 2 then Failure(ShortBuffer)
      else
        var dataCount := Uint16At(buf, nameEnd);
        var data := ParseDataItems(buf, nameEnd + 2, dataCount);
        if data.Failure? then Failure(data.error)
        else Success((EaddBody(objectId, timestamp, buf[p + 18..nameEnd], data.value.0), data.value.1))
  }

  /** A body whose fields fit their wire widths. */
  predicate EncodableBody(b: EaddBody) {
    && b.objectId < 0x1_0000_0000_0000_0000
    && b.timestamp < 0x1_0000_0000_0000_0000
    && |b.actionName| < 0x1_0000
    && |b.items| < 0x1_0000
    && AllEncodable(b.items)
  }

  /** An EADD body's wire form, as the parser reads it. */
  function EncodeEaddBody(b: EaddBody): (s: seq<byte>)
    requires EncodableBody(b)
  {
    Pow256Values();
    ToBigEndian(b.objectId, 8) + ToBigEndian(b.timestamp, 8)
      + Uint16Bytes(|b.actionName|) + b.actionName
      + Uint16Bytes(|b.items|) + EncodeDataItems(b.items)
  }

  lemma {:induction false} EncodeDataItemsLength(items: seq<DataItem>)
    requires AllEncodable(items)
    ensures |EncodeDataItems(items)| == TotalSize(items)
  {
    if items != [] {
      EncodeDataItemsLength(items[..|items| - 1]);
    }
  }

  /** The bytes the data loop consumed are exactly the encoding of the items
      it produced. */
  lemma {:induction false} DataItemsConsumed(buf: seq<byte>, p: nat, n: nat)
    requires ParseDataItems(buf, p, n).Success?
    ensures var r := ParseDataItems(buf, p, n).value;
      && AllEncodable(r.0)
      && buf[p..r.1] == EncodeDataItems(r.0)
      && r.1 == p + TotalSize(r.0)
  {
    if n > 0 {
      DataItemsConsumed(buf, p, n - 1);
      var before := ParseDataItems(buf, p, n - 1).value;
      var next := ParseDataItem(buf, before.1).value;
      ParseDataItemBytes(buf, before.1);
      ConsumedStep(buf, p, before.0, before.1, next.0, next.1);
      assert ParseDataItems(buf, p, n).value == (before.0 + [next.0], next.1);
    }
  }

  /** One more item, encoded right after the encoding of the others, extends
      the bytes consumed by its own encoding. */
  lemma {:induction false} ConsumedStep(buf: seq<byte>, p: nat, init: seq<DataItem>, q: nat, item: DataItem, end: nat)
    requires AllEncodable(init) && p <= q == p + TotalSize(init) <= |buf| && buf[p..q] == EncodeDataItems(init)
    requires EncodableItem(item) && end == q + ItemSize(item) <= |buf| && buf[q..end] == EncodeDataItem(item)
    ensures var items := init + [item];
      && AllEncodable(items)
      && buf[p..end] == EncodeDataItems(items)
      && end == p + TotalSize(items)
  {
    var items := init + [item];
    assert items[..|items| - 1] == init && items[|items| - 1] == item;
    assert buf[p..end] == buf[p..q] + buf[q..end];
  }

  /** The message a successful parse read is, byte for byte, the header
      followed by the encoding of the body it produced; so it consumed
      8 + 8 + 2 + |name| + 2 + the sum over the items of 2 + |key| + 1 + |value|
      bytes after the header. */
  lemma {:induction false} EaddConsumed(buf: seq<byte>)
    requires ParseEadd(buf).Success?
    ensures var (body, end) := ParseEadd(buf).value;
      && EncodableBody(body)
      && buf[HeaderLength..end] == EncodeEaddBody(body)
      && end == HeaderLength + 8 + 8 + 2 + |body.actionName| + 2 + TotalSize(body.items)
  {
    var (body, end) := ParseEadd(buf).value;
    var nameEnd := HeaderLength + 18 + |body.actionName|;
    ParseEaddParts(buf);
    DataItemsConsumed(buf, nameEnd + 2, |body.items|);
    EncodeDataItemsLength(body.items);
    ToBigEndianOfBigEndian(buf[HeaderLength..HeaderLength + 8]);
    ToBigEndianOfBigEndian(buf[HeaderLength + 8..HeaderLength + 16]);
    Uint16BytesOfAt(buf, HeaderLength + 16);
    Uint16BytesOfAt(buf, nameEnd);
    Pow256Values();
    assert EncodableBody(body);
    assert buf[HeaderLength..HeaderLength + 8] == ToBigEndian(body.objectId, 8);
    assert buf[HeaderLength + 8..HeaderLength + 16] == ToBigEndian(body.timestamp, 8);
    assert buf[nameEnd + 2..nameEnd + 2 + |EncodeDataItems(body.items)|] == EncodeDataItems(body.items);
    EaddBodyAt(buf, body);
  }

  /** What a successful `ParseEadd` read, field by field. */
  lemma {:induction false} ParseEaddParts(buf: seq<byte>)
    requires ParseEadd(buf).Success?
    ensures var (body, end) := ParseEadd(buf).value;
      var nameEnd := HeaderLength + 18 + |body.actionName|;
      && nameEnd + 2 <= |buf|
      && body.objectId == BigEndian(buf[HeaderLength..HeaderLength + 8])
      && body.timestamp == BigEndian(buf[HeaderLength + 8..HeaderLength + 16])
      && Uint16At(buf, HeaderLength + 16) == |body.actionName|
      && buf[HeaderLength + 18..nameEnd] == body.actionName
      && Uint16At(buf, nameEnd) == |body.items|
      && ParseDataItems(buf, nameEnd + 2, |body.items|) == Success((body.items, end))
  {
  }

  /** The fields of a body's encoding, each found where the parser reads it,
      make up the whole encoding after the header: the converse of
      `EaddBodyParts`. */
  lemma {:induction false} EaddBodyAt(buf: seq<byte>, b: EaddBody)
    requires EncodableBody(b)
    requires var p, nameEnd := HeaderLength, HeaderLength + 18 + |b.actionName|;
      && nameEnd + 2 + |EncodeDataItems(b.items)| <= |buf|
      && buf[p..p + 8] == ToBigEndian(b.objectId, 8)
      && buf[p + 8..p + 16] == ToBigEndian(b.timestamp, 8)
      && buf[p + 16..p + 18] == Uint16Bytes(|b.actionName|)
      && buf[p + 18..nameEnd] == b.actionName
      && buf[nameEnd..nameEnd + 2] == Uint16Bytes(|b.items|)
      && buf[nameEnd + 2..nameEnd + 2 + |EncodeDataItems(b.items)|] == EncodeDataItems(b.items)
    ensures HeaderLength + |EncodeEaddBody(b)| <= |buf|
    ensures buf[HeaderLength..HeaderLength + |EncodeEaddBody(b)|] == EncodeEaddBody(b)
  {
    Pow256Values();
    var p := HeaderLength;
    var t1, t2, t3 := ToBigEndian(b.objectId, 8), ToBigEndian(b.timestamp, 8), Uint16Bytes(|b.actionName|);
    var t4, t5, t6 := b.actionName, Uint16Bytes(|b.items|), EncodeDataItems(b.items);
    SliceJoin(buf, p, t1, t2);
    SliceJoin(buf, p, t1 + t2, t3);
    SliceJoin(buf, p, t1 + t2 + t3, t4);
    SliceJoin(buf, p, t1 + t2 + t3 + t4, t5);
    SliceJoin(buf, p, t1 + t2 + t3 + t4 + t5, t6);
    assert EncodeEaddBody(b) == t1 + t2 + t3 + t4 + t5 + t6;
  }

  /** Where `a` lies at `p` and `b` right after it, `a + b` lies at `p`. */
  lemma {:induction false} SliceJoin(buf: seq<byte>, p: nat, a: seq<byte>, b: seq<byte>)
    requires p + |a| + |b| <= |buf|
    requires buf[p..p + |a|] == a && buf[p + |a|..p + |a| + |b|] == b
    ensures buf[p..p + |a| + |b|] == a + b
  {
    assert buf[p..p + |a| + |b|] == buf[p..p + |a|] + buf[p + |a|..p + |a| + |b|];
  }

  /** A data item's encoding at cursor `q` parses to that item if its value is
      short enough, and is otherwise rejected as too large. */
  lemma {:induction false} DataItemAt(buf: seq<byte>, q: nat, item: DataItem)
    requires EncodableItem(item)
    requires q + ItemSize(item) <= |buf| && buf[q..q + ItemSize(item)] == EncodeDataItem(item)
    ensures ParseDataItem(buf, q) ==
      if |item.value| <= EventDataItem.MaxValueLength then Success((item, q + ItemSize(item)))
      else Failure(ValueTooLarge)
  {
    var e := EncodeDataItem(item);
    var k := |item.key|;
    EncodeDataItemParts(item);
    SubSlice(buf, q, e, 0, 2);
    Uint16RoundTrip(k, buf, q);
    SubSlice(buf, q, e, 2, 2 + k);
    assert buf[q + 2 + k] == e[2 + k];
    SubSlice(buf, q, e, 3 + k, |e|);
  }

  /** Where each field of a data item's encoding lies. */
  lemma EncodeDataItemParts(item: DataItem)
    requires EncodableItem(item)
    ensures var e, k := EncodeDataItem(item), |item.key|;
      && e[0..2] == Uint16Bytes(k) && e[2..2 + k] == item.key
      && e[2 + k] == |item.value| as byte && e[3 + k..|e|] == item.value
  {
    var e, k := EncodeDataItem(item), |item.key|;
    assert e == Uint16Bytes(k) + item.key + [|item.value| as byte] + item.value;
  }

  /** One more iteration of the data loop after `n - 1` successful ones. */
  lemma {:induction false} ParseDataItemsSnoc(buf: seq<byte>, p: nat, n: nat, init: seq<DataItem>, q: nat)
    requires n > 0 && ParseDataItems(buf, p, n - 1) == Success((init, q))
    ensures ParseDataItem(buf, q).Success? ==>
      ParseDataItems(buf, p, n) == Success((init + [ParseDataItem(buf, q).value.0], ParseDataItem(buf, q).value.1))
    ensures ParseDataItem(buf, q).Failure? ==>
      ParseDataItems(buf, p, n) == Failure(ParseDataItem(buf, q).error)
  {
  }

  /** The encoding of `items` at `p` is the encoding of all but the last
      item, followed by the encoding of the last. */
  lemma {:induction false} EncodedItemsSplit(buf: seq<byte>, p: nat, items: seq<DataItem>)
    requires items != [] && AllEncodable(items)
    requires p + |EncodeDataItems(items)| <= |buf|
    requires buf[p..p + |EncodeDataItems(items)|] == EncodeDataItems(items)
    ensures AllEncodable(items[..|items| - 1])
    ensures var ei := EncodeDataItems(items[..|items| - 1]);
      var el := EncodeDataItem(items[|items| - 1]);
      && |EncodeDataItems(items)| == |ei| + |el|
      && buf[p..p + |ei|] == ei
      && buf[p + |ei|..p + |ei| + |el|] == el
  {
    var init := items[..|items| - 1];
    var ei, el := EncodeDataItems(init), EncodeDataItem(items[|items| - 1]);
    assert EncodeDataItems(items) == ei + el;
    SliceSplit(buf, p, ei, el);
  }

  /** Where `a + b` lies at `p`, `a` lies at `p` and `b` right after it. */
  lemma {:induction false} SliceSplit(buf: seq<byte>, p: nat, a: seq<byte>, b: seq<byte>)
    requires p + |a| + |b| <= |buf| && buf[p..p + |a| + |b|] == a + b
    ensures buf[p..p + |a|] == a && buf[p + |a|..p + |a| + |b|] == b
  {
    assert buf[p..p + |a|] == (a + b)[..|a|];
    assert buf[p + |a|..p + |a| + |b|] == (a + b)[|a|..];
  }

  /** The encoding of `items` lies in `buf` from `p` to `end`. */
  ghost predicate ItemsAt(buf: seq<byte>, p: nat, items: seq<DataItem>, end: nat) {
    && AllEncodable(items)
    && end == p + |EncodeDataItems(items)| <= |buf|
    && buf[p..end] == EncodeDataItems(items)
  }

  /** Parsing the encoding of `items` found at cursor `p` gives the items
      back when every value is short enough, and a rejection otherwise. */
  lemma {:induction false} DataItemsAt(buf: seq<byte>, p: nat, items: seq<DataItem>, end: nat)
    requires ItemsAt(buf, p, items, end)
    ensures ParseDataItems(buf, p, |items|) == if ValuesFit(items) then Success((items, end)) else Failure(ValueTooLarge)
  {
    if items == [] {
      assert ParseDataItems(buf, p, 0) == Success(([], p));
    } else {
      var init := items[..|items| - 1];
      var q := p + |EncodeDataItems(init)|;
      EncodedItemsSplit(buf, p, items);
      DataItemsAt(buf, p, init, q);
      DataItemsAtLast(buf, p, items, q, end);
    }
  }

  /** The inductive step of `DataItemsAt`: the last item, found from `q` to
      `end` right after the encoding of the others, extends their parse by
      one item. */
  lemma {:induction false} DataItemsAtLast(buf: seq<byte>, p: nat, items: seq<DataItem>, q: nat, end: nat)
    requires items != [] && EncodableItem(items[|items| - 1])
    requires end == q + |EncodeDataItem(items[|items| - 1])| <= |buf|
    requires buf[q..end] == EncodeDataItem(items[|items| - 1])
    requires ParseDataItems(buf, p, |items| - 1) ==
      if ValuesFit(items[..|items| - 1]) then Success((items[..|items| - 1], q)) else Failure(ValueTooLarge)
    ensures ParseDataItems(buf, p, |items|) == if ValuesFit(items) then Success((items, end)) else Failure(ValueTooLarge)
  {
    ValuesFitSnoc(items);
    if ValuesFit(items[..|items| - 1]) {
      DataItemsAtLastParsed(buf, p, items, q, end);
    } else {
      DataItemsFailureStays(buf, p, |items| - 1, |items|);
    }
  }

  /** `DataItemsAtLast` once the other items have been parsed. */
  lemma {:induction false} DataItemsAtLastParsed(buf: seq<byte>, p: nat, items: seq<DataItem>, q: nat, end: nat)
    requires items != [] && EncodableItem(items[|items| - 1])
    requires end == q + ItemSize(items[|items| - 1]) <= |buf|
    requires buf[q..end] == EncodeDataItem(items[|items| - 1])
    requires ParseDataItems(buf, p, |items| - 1) == Success((items[..|items| - 1], q))
    ensures ParseDataItems(buf, p, |items|) ==
      if |items[|items| - 1].value| <= EventDataItem.MaxValueLength then Success((items, end)) else Failure(ValueTooLarge)
  {
    var init, last := items[..|items| - 1], items[|items| - 1];
    DataItemAt(buf, q, last);
    ParseDataItemsSnoc(buf, p, |items|, init, q);
    assert init + [last] == items;
  }

  /** A nonempty sequence of items fits when the others fit and the last does. */
  lemma {:induction false} ValuesFitSnoc(items: seq<DataItem>)
    requires items != []
    ensures ValuesFit(items) == (ValuesFit(items[..|items| - 1]) && |items[|items| - 1].value| <= EventDataItem.MaxValueLength)
  {
  }

  /** Parsing an encoded EADD message gives back its body and reads exactly
      its bytes when every data value is at most 127 bytes; a message with a
      longer value is rejected. Whatever the ten header bytes hold, the
      parse depends only on the body's encoding after them. */
  lemma {:induction false} EaddRoundTrip(buf: seq<byte>, b: EaddBody)
    requires EncodableBody(b)
    requires HeaderLength + |EncodeEaddBody(b)| <= |buf|
    requires buf[HeaderLength..HeaderLength + |EncodeEaddBody(b)|] == EncodeEaddBody(b)
    ensures ParseEadd(buf) ==
      if ValuesFit(b.items) then Success((b, HeaderLength + |EncodeEaddBody(b)|)) else Failure(ValueTooLarge)
  {
    EaddBodyRead(buf, b);
    ParseEaddOfBody(buf, b, HeaderLength + |EncodeEaddBody(b)|);
  }

  /** `buf` holds, after the header, the fixed fields of `b` as the parser
      reads them: the object id, the timestamp, the action name with its
      length, and the data count. */
  ghost predicate FixedFieldsAt(buf: seq<byte>, b: EaddBody) {
    && HeaderLength + 18 + |b.actionName| + 2 <= |buf|
    && BigEndian(buf[HeaderLength..HeaderLength + 8]) == b.objectId
    && BigEndian(buf[HeaderLength + 8..HeaderLength + 16]) == b.timestamp
    && Uint16At(buf, HeaderLength + 16) == |b.actionName|
    && buf[HeaderLength + 18..HeaderLength + 18 + |b.actionName|] == b.actionName
    && Uint16At(buf, HeaderLength + 18 + |b.actionName|) == |b.items|
  }

  /** `buf` holds the fixed fields of `b`, followed by data that parses as
      `b`'s items ending at `end`, or is rejected when a value is too long. */
  ghost predicate BodyReadAs(buf: seq<byte>, b: EaddBody, end: nat) {
    && FixedFieldsAt(buf, b)
    && ParseDataItems(buf, HeaderLength + 18 + |b.actionName| + 2, |b.items|) ==
      if ValuesFit(b.items) then Success((b.items, end)) else Failure(ValueTooLarge)
  }

  /** What the parser reads from an EADD body's encoding found after the
      header: the body's own fixed fields, then its items up to where the
      encoding ends. */
  lemma {:induction false} EaddBodyRead(buf: seq<byte>, b: EaddBody)
    requires EncodableBody(b)
    requires HeaderLength + |EncodeEaddBody(b)| <= |buf|
    requires buf[HeaderLength..HeaderLength + |EncodeEaddBody(b)|] == EncodeEaddBody(b)
    ensures BodyReadAs(buf, b, HeaderLength + |EncodeEaddBody(b)|)
  {
    var start := HeaderLength + 18 + |b.actionName| + 2;
    EaddFieldsAt(buf, b);
    DataItemsAt(buf, start, b.items, HeaderLength + |EncodeEaddBody(b)|);
  }

  /** `ParseEadd` on a buffer that holds `b`'s fields and items. */
  lemma {:induction false} ParseEaddOfBody(buf: seq<byte>, b: EaddBody, end: nat)
    requires BodyReadAs(buf, b, end)
    ensures ParseEadd(buf) == if ValuesFit(b.items) then Success((b, end)) else Failure(ValueTooLarge)
  {
    ParseEaddFields(buf, b.objectId, b.timestamp, b.actionName, |b.items|, HeaderLength + 18 + |b.actionName| + 2);
    assert EaddBody(b.objectId, b.timestamp, b.actionName, b.items) == b;
  }

  /** The fixed fields of an EADD body's encoding, found after the header,
      read back as the body's own, and its data items follow them. */
  lemma {:induction false} EaddFieldsAt(buf: seq<byte>, b: EaddBody)
    requires EncodableBody(b)
    requires HeaderLength + |EncodeEaddBody(b)| <= |buf|
    requires buf[HeaderLength..HeaderLength + |EncodeEaddBody(b)|] == EncodeEaddBody(b)
    ensures FixedFieldsAt(buf, b)
    ensures ItemsAt(buf, HeaderLength + 18 + |b.actionName| + 2, b.items, HeaderLength + |EncodeEaddBody(b)|)
  {
    Pow256Values();
    var nameEnd := HeaderLength + 18 + |b.actionName|;
    EaddBodyParts(buf, b);
    BigEndianOfToBigEndian(b.objectId, 8);
    BigEndianOfToBigEndian(b.timestamp, 8);
    Uint16RoundTrip(|b.actionName|, buf, HeaderLength + 16);
    Uint16RoundTrip(|b.items|, buf, nameEnd);
  }

  /** Each field of an EADD body's encoding, found after the header, lies
      where the parser reads it. */
  lemma {:induction false} EaddBodyParts(buf: seq<byte>, b: EaddBody)
    requires EncodableBody(b)
    requires HeaderLength + |EncodeEaddBody(b)| <= |buf|
    requires buf[HeaderLength..HeaderLength + |EncodeEaddBody(b)|] == EncodeEaddBody(b)
    ensures var p, nameEnd := HeaderLength, HeaderLength + 18 + |b.actionName|;
      && |EncodeEaddBody(b)| == 18 + |b.actionName| + 2 + |EncodeDataItems(b.items)|
      && buf[p..p + 8] == ToBigEndian(b.objectId, 8)
      && buf[p + 8..p + 16] == ToBigEndian(b.timestamp, 8)
      && buf[p + 16..p + 18] == Uint16Bytes(|b.actionName|)
      && buf[p + 18..nameEnd] == b.actionName
      && buf[nameEnd..nameEnd + 2] == Uint16Bytes(|b.items|)
      && buf[nameEnd + 2..nameEnd + 2 + |EncodeDataItems(b.items)|] == EncodeDataItems(b.items)
  {
    Pow256Values();
    var p := HeaderLength;
    var t1, t2, t3 := ToBigEndian(b.objectId, 8), ToBigEndian(b.timestamp, 8), Uint16Bytes(|b.actionName|);
    var t4, t5, t6 := b.actionName, Uint16Bytes(|b.items|), EncodeDataItems(b.items);
    assert EncodeEaddBody(b) == t1 + t2 + t3 + t4 + t5 + t6;
    SliceSplit(buf, p, t1 + t2 + t3 + t4 + t5, t6);
    SliceSplit(buf, p, t1 + t2 + t3 + t4, t5);
    SliceSplit(buf, p, t1 + t2 + t3, t4);
    SliceSplit(buf, p, t1 + t2, t3);
    SliceSplit(buf, p, t1, t2);
  }

  /** A parse that does not run out of bytes finds its fixed fields, up to
      the data count, inside the buffer. */
  lemma {:induction false} ParseEaddBounds(buf: seq<byte>)
    requires ParseEadd(buf).Failure? ==> ParseEadd(buf).error != ShortBuffer
    ensures HeaderLength + 18 <= |buf|
    ensures HeaderLength + 18 + Uint16At(buf, HeaderLength + 16) + 2 <= |buf|
  {
  }

  /** `ParseEadd` once the fixed fields have been found to hold the given
      values: the outcome is that of the data loop starting at `start`. */
  lemma {:induction false} ParseEaddFields(buf: seq<byte>, objectId: nat, timestamp: nat, name: seq<byte>, count: nat, start: nat)
    requires start == HeaderLength + 18 + |name| + 2 <= |buf|
    requires BigEndian(buf[HeaderLength..HeaderLength + 8]) == objectId
    requires BigEndian(buf[HeaderLength + 8..HeaderLength + 16]) == timestamp
    requires Uint16At(buf, HeaderLength + 16) == |name|
    requires buf[HeaderLength + 18..HeaderLength + 18 + |name|] == name
    requires Uint16At(buf, HeaderLength + 18 + |name|) == count
    ensures ParseEadd(buf).Success? <==> ParseDataItems(buf, start, count).Success?
    ensures ParseDataItems(buf, start, count).Failure? ==>
      ParseEadd(buf).error == ParseDataItems(buf, start, count).error
    ensures ParseEadd(buf).Success? ==>
      ParseEadd(buf).value ==
        (EaddBody(objectId, timestamp, name, ParseDataItems(buf, start, count).value.0), ParseDataItems(buf, start, count).value.1)
  {
  }

  /** Once the data loop has failed, running it for more items fails the same way. */
  lemma {:induction false} DataItemsFailureStays(buf: seq<byte>, p: nat, m: nat, n: nat)
    requires m <= n && ParseDataItems(buf, p, m).Failure?
    ensures ParseDataItems(buf, p, n) == ParseDataItems(buf, p, m)
    decreases n - m
  {
    if m < n {
      DataItemsFailureStays(buf, p, m, n - 1);
    }
  }

  /** `sky_eadd_message`: the fields the parser fills in. */
  class EaddMessage {
    var objectId: nat
    var timestamp: nat
    var actionName: seq<byte>
    var dataCount: nat
    var dataKeys: array<seq<byte>>
    var dataValues: array<seq<byte>>

    constructor ()
      ensures objectId == 0 && timestamp == 0 && actionName == [] && dataCount == 0
      ensures dataKeys.Length == 0 && dataValues.Length == 0
    {
      objectId, timestamp, actionName, dataCount := 0, 0, [], 0;
      dataKeys := new seq<byte>[0];
      dataValues := new seq<byte>[0];
    }

    /** The message's fields hold `body`, the keys and the values in input order. */
    ghost predicate Holds(body: EaddBody)
      reads this, dataKeys, dataValues
    {
      && objectId == body.objectId && timestamp == body.timestamp
      && actionName == body.actionName && dataCount == |body.items|
      && dataKeys[..] == KeysOf(body.items) && dataValues[..] == ValuesOf(body.items)
    }

    /** `sky_eadd_message_parse`: parses the header, skips it, then reads the
        body field by field, advancing a cursor; fails with -1 on the first
        data value of 128 bytes or more. The header's length field is not
        consulted, so the caller must supply every byte the parse reads. */
    method Parse(buf: seq<byte>, order: ByteOrder) returns (rc: int)
      requires ParseEadd(buf).Failure? ==> ParseEadd(buf).error != ShortBuffer
      modifies this
      ensures rc == 0 || rc == -1
      ensures rc == 0 <==> ParseEadd(buf).Success?
      ensures rc == 0 ==> fresh(dataKeys) && fresh(dataValues) && Holds(ParseEadd(buf).value.0)
    {
      ParseEaddBounds(buf);
      var ptr, maxptr := ReadHeader(buf, order);

      var id, time, nameLength, name, count;
      id, ptr := ReadUint64(buf, ptr, order);
      time, ptr := ReadUint64(buf, ptr, order);
      nameLength, ptr := ReadUint16(buf, ptr, order);
      name := buf[ptr..ptr + nameLength];
      ptr := ptr + nameLength;
      count, ptr := ReadUint16(buf, ptr, order);
      ParseEaddFields(buf, id, time, name, count, ptr);

      var keys := new seq<byte>[count];
      var values := new seq<byte>[count];
      objectId, timestamp, actionName, dataCount := id, time, name, count;
      dataKeys, dataValues := keys, values;
      ghost var data := ParseDataItems(buf, ptr, count);
      label filled:
      rc := ReadDataItems(buf, ptr, order, keys, values);
      assert unchanged@filled(this);
      if rc == 0 {
        assert Holds(EaddBody(id, time, name, data.value.0));
      }
    }
  }

  /** The start of `sky_eadd_message_parse`: parses the header and skips it,
      computing from its length field where the message ends. That end is
      never checked against the reads that follow. */
  method ReadHeader(buf: seq<byte>, order: ByteOrder) returns (ptr: nat, maxptr: nat)
    requires HeaderLength <= |buf|
    ensures ptr == HeaderLength
    ensures maxptr == HeaderLength + BigEndian(buf[6..10])
  {
    ptr := 0;
    var headerRc, header := ParseHeader(buf, ptr, order);
    ptr := ptr + HeaderLength;
    maxptr := ptr + header.length;
    assert buf[0..][6..10] == buf[6..10];
  }

  /** The keys of `items`, in order. */
  function KeysOf(items: seq<DataItem>): (keys: seq<seq<byte>>)
    ensures |keys| == |items|
  {
    seq(|items|, j requires 0 <= j < |items| => items[j].key)
  }

  /** The values of `items`, in order. */
  function ValuesOf(items: seq<DataItem>): (values: seq<seq<byte>>)
    ensures |values| == |items|
  {
    seq(|items|, j requires 0 <= j < |items| => items[j].value)
  }

  /** One more item adds its key and its value at the end. */
  lemma {:induction false} KeysValuesOfSnoc(items: seq<DataItem>, item: DataItem)
    ensures KeysOf(items + [item]) == KeysOf(items) + [item.key]
    ensures ValuesOf(items + [item]) == ValuesOf(items) + [item.value]
  {
    assert forall j :: 0 <= j < |items| ==> (items + [item])[j] == items[j];
  }

  /** The data loop of `sky_eadd_message_parse`: reads `keys.Length` items
      from cursor `start` into the key and value arrays, in input order, and
      fails with -1 on the first value of 128 bytes or more. */
  method ReadDataItems(buf: seq<byte>, start: nat, order: ByteOrder, keys: array<seq<byte>>, values: array<seq<byte>>)
    returns (rc: int)
    requires keys != values && keys.Length == values.Length && start <= |buf|
    requires var data := ParseDataItems(buf, start, keys.Length);
      data.Failure? ==> data.error != ShortBuffer
    modifies keys, values
    ensures rc == 0 || rc == -1
    ensures rc == 0 <==> ParseDataItems(buf, start, keys.Length).Success?
    ensures rc == 0 ==> var items := ParseDataItems(buf, start, keys.Length).value.0;
      keys[..] == KeysOf(items) && values[..] == ValuesOf(items)
  {
    var ptr := start;
    ghost var parsed: seq<DataItem> := [];
    for i := 0 to keys.Length
      invariant ParseDataItems(buf, start, i) == Success((parsed, ptr))
      invariant keys[..i] == KeysOf(parsed) && values[..i] == ValuesOf(parsed)
    {
      ghost var itemStart := ptr;
      DataLoopNotShort(buf, start, keys.Length, i, parsed, ptr);
      ItemKeyInside(buf, ptr);
      var key;
      key, ptr := ReadKey(buf, ptr, order);
      keys[i] := key;

      ghost var keyEnd := ptr;
      ItemValueInside(buf, itemStart, keyEnd);
      var ok, value;
      ok, value, ptr := ReadValue(buf, ptr);
      if !ok {
        assert ParseDataItems(buf, start, keys.Length) == Failure(ValueTooLarge) by {
          ItemTooLarge(buf, itemStart, keyEnd);
          DataLoopTooLarge(buf, start, keys.Length, i, parsed, itemStart);
        }
        return -1;
      }
      values[i] := value;

      assert ParseDataItems(buf, start, i + 1) == Success((parsed + [DataItem(key, value)], ptr)) by {
        ItemRead(buf, itemStart, keyEnd, key, value, ptr);
        DataLoopStep(buf, start, i, parsed, itemStart, DataItem(key, value), ptr);
      }
      KeysValuesOfSnoc(parsed, DataItem(key, value));
      assert keys[..i + 1] == keys[..i] + [key];
      assert values[..i + 1] == values[..i] + [value];
      parsed := parsed + [DataItem(key, value)];
    }
    assert keys[..] == keys[..keys.Length];
    assert values[..] == values[..keys.Length];
    rc := 0;
  }

  /** The key of one data item: a 16-bit length, then that many bytes. */
  method ReadKey(buf: seq<byte>, ptr: nat, order: ByteOrder) returns (key: seq<byte>, next: nat)
    requires ptr + 2 <= |buf| && ptr + 2 + Uint16At(buf, ptr) <= |buf|
    ensures next == ptr + 2 + Uint16At(buf, ptr) && key == buf[ptr + 2..next]
  {
    var dataKeyLength, p := ReadUint16(buf, ptr, order);
    key := buf[p..p + dataKeyLength];
    next := p + dataKeyLength;
  }

  /** The value of one data item: a one-byte length, checked to be below 128
      once it has been read, then that many bytes. */
  method ReadValue(buf: seq<byte>, ptr: nat) returns (ok: bool, value: seq<byte>, next: nat)
    requires ptr < |buf| && (buf[ptr] < 128 ==> ptr + 1 + buf[ptr] as nat <= |buf|)
    ensures ok <==> buf[ptr] < 128
    ensures ok ==> next == ptr + 1 + buf[ptr] as nat && value == buf[ptr + 1..next]
  {
    var dataValueLength := buf[ptr];
    next := ptr + 1;
    if dataValueLength >= 128 {
      return false, [], next;
    }
    value := buf[next..next + dataValueLength as nat];
    next := next + dataValueLength as nat;
    ok := true;
  }

  /** Within a data loop that does not run out of bytes, no single
      iteration runs out of bytes either. */
  lemma {:induction false} DataLoopNotShort(buf: seq<byte>, start: nat, count: nat, i: nat, parsed: seq<DataItem>, p: nat)
    requires i < count
    requires ParseDataItems(buf, start, i) == Success((parsed, p))
    requires ParseDataItems(buf, start, count).Failure? ==> ParseDataItems(buf, start, count).error != ShortBuffer
    ensures ParseDataItem(buf, p).Failure? ==> ParseDataItem(buf, p).error == ValueTooLarge
  {
    ParseDataItemsSnoc(buf, start, i + 1, parsed, p);
    if ParseDataItem(buf, p).Failure? {
      DataItemsFailureStays(buf, start, i + 1, count);
    }
  }

  /** An iteration that does not run out of bytes finds its key length, its
      key and its value length inside the buffer. */
  lemma {:induction false} ItemKeyInside(buf: seq<byte>, p: nat)
    requires ParseDataItem(buf, p).Failure? ==> ParseDataItem(buf, p).error == ValueTooLarge
    ensures p + 2 <= |buf| && p + 2 + Uint16At(buf, p) + 1 <= |buf|
  {
  }

  /** An iteration that does not run out of bytes, once its key has been
      found to end at `keyEnd`, finds a value length below 128 followed by
      that many bytes. */
  lemma {:induction false} ItemValueInside(buf: seq<byte>, p: nat, keyEnd: nat)
    requires ParseDataItem(buf, p).Failure? ==> ParseDataItem(buf, p).error == ValueTooLarge
    requires p + 2 <= |buf| && keyEnd == p + 2 + Uint16At(buf, p) && keyEnd < |buf|
    ensures buf[keyEnd] < 128 ==> keyEnd + 1 + buf[keyEnd] as nat <= |buf|
  {
    ParseDataItemCases(buf, p, keyEnd);
  }

  /** A value length from 128 up rejects the item. */
  lemma {:induction false} ItemTooLarge(buf: seq<byte>, p: nat, keyEnd: nat)
    requires p + 2 <= |buf| && keyEnd == p + 2 + Uint16At(buf, p) && keyEnd < |buf| && buf[keyEnd] >= 128
    ensures ParseDataItem(buf, p) == Failure(ValueTooLarge)
  {
    ParseDataItemCases(buf, p, keyEnd);
  }

  /** The item one iteration reads: the key up to `keyEnd`, then the value. */
  lemma {:induction false} ItemRead(buf: seq<byte>, p: nat, keyEnd: nat, key: seq<byte>, value: seq<byte>, end: nat)
    requires p + 2 <= |buf| && keyEnd == p + 2 + Uint16At(buf, p) && keyEnd < |buf| && buf[keyEnd] < 128
    requires end == keyEnd + 1 + buf[keyEnd] as nat && end <= |buf|
    requires key == buf[p + 2..keyEnd] && value == buf[keyEnd + 1..end]
    ensures ParseDataItem(buf, p) == Success((DataItem(key, value), end))
  {
    ParseDataItemCases(buf, p, keyEnd);
  }

  /** One more successful iteration of the data loop. */
  lemma {:induction false} DataLoopStep(buf: seq<byte>, start: nat, i: nat, parsed: seq<DataItem>, p: nat, item: DataItem, end: nat)
    requires ParseDataItems(buf, start, i) == Success((parsed, p))
    requires ParseDataItem(buf, p) == Success((item, end))
    ensures ParseDataItems(buf, start, i + 1) == Success((parsed + [item], end))
  {
    ParseDataItemsSnoc(buf, start, i + 1, parsed, p);
  }

  /** A rejected value makes the whole data loop fail. */
  lemma {:induction false} DataLoopTooLarge(buf: seq<byte>, start: nat, count: nat, i: nat, parsed: seq<DataItem>, p: nat)
    requires i < count
    requires ParseDataItems(buf, start, i) == Success((parsed, p))
    requires ParseDataItem(buf, p) == Failure(ValueTooLarge)
    ensures ParseDataItems(buf, start, count) == Failure(ValueTooLarge)
  {
    ParseDataItemsSnoc(buf, start, i + 1, parsed, p);
    DataItemsFailureStays(buf, start, i + 1, count);
  }

  /** `ParseDataItem` once the key has been found to end at `keyEnd`. */
  lemma {:induction false} ParseDataItemCases(buf: seq<byte>, p: nat, keyEnd: nat)
    requires p + 2 <= |buf| && keyEnd == p + 2 + Uint16At(buf, p) && keyEnd < |buf|
    ensures buf[keyEnd] >= 128 ==> ParseDataItem(buf, p) == Failure(ValueTooLarge)
    ensures buf[keyEnd] < 128 && keyEnd + 1 + buf[keyEnd] as nat > |buf| ==> ParseDataItem(buf, p) == Failure(ShortBuffer)
    ensures buf[keyEnd] < 128 && keyEnd + 1 + buf[keyEnd] as nat <= |buf| ==>
      ParseDataItem(buf, p) ==
        Success((DataItem(buf[p + 2..keyEnd], buf[keyEnd + 1..keyEnd + 1 + buf[keyEnd] as nat]), keyEnd + 1 + buf[keyEnd] as nat))
  {
  }

  /** A `memread` of a 16-bit field followed by `ntohs`: the field's value
      and the cursor after it. */
  method ReadUint16(buf: seq<byte>, ptr: nat, order: ByteOrder) returns (x: nat, next: nat)
    requires ptr + 2 <= |buf|
    ensures x == Uint16At(buf, ptr) && next == ptr + 2
  {
    Pow256Values();
    x := HostLoad(order, buf[ptr..ptr + 2]);
    next := ptr + 2;
    x := NetworkToHost(order, x, 2);
    NetworkToHostOfLoad(order, buf[ptr..ptr + 2]);
    Uint16AtIsBigEndian(buf, ptr);
  }

  /** A `memread` of a 64-bit field followed by `ntohll`: the field's value
      and the cursor after it. */
  method ReadUint64(buf: seq<byte>, ptr: nat, order: ByteOrder) returns (x: nat, next: nat)
    requires ptr + 8 <= |buf|
    ensures x == BigEndian(buf[ptr..ptr + 8]) && next == ptr + 8
  {
    Pow256Values();
    x := HostLoad(order, buf[ptr..ptr + 8]);
    next := ptr + 8;
    x := NetworkToHost(order, x, 8);
    NetworkToHostOfLoad(order, buf[ptr..ptr + 8]);
  }
}
